/** Prices around a cycle, and the sharing of the gain between the owners. */
module Gains {
  import opened Numeric
  import opened FlowTypes
  import opened Owners

  /** The node has a price: neither quantity nor probability is zero. */
  predicate Priced(b: Tfl) {
    b.qttProv != 0 && b.qttRequ != 0 && b.proba != 0.0
  }

  /** The price of an order: what it gives for one unit received, at most. */
  function Omega(b: Tfl): (w: real)
    requires Priced(b)
    ensures w > 0.0
  {
    b.qttProv as real / b.qttRequ as real
  }

  function OmegaPath(x: seq<Tfl>): (omega: seq<real>)
    requires forall i :: 0 <= i < |x| ==> Priced(x[i])
    ensures |omega| == |x| && Positive(omega)
    ensures forall i :: 0 <= i < |x| ==> omega[i] == Omega(x[i])
  {
    seq(|x|, i requires 0 <= i < |x| => Omega(x[i]))
  }

  /** The nodes whose price is read: all, or all but the last. */
  function PricedNodes(x: seq<Tfl>, ignoreLast: bool): seq<Tfl>
    requires |x| >= 1
  {
    if ignoreLast then x[..|x| - 1] else x
  }

  predicate AllPriced(x: seq<Tfl>, ignoreLast: bool)
    requires |x| >= 1
  {
    var y := PricedNodes(x, ignoreLast);
    forall i :: 0 <= i < |y| ==> Priced(y[i])
  }

  /** The prices of the nodes; an ignored last price is the one that makes the
      product one. */
  function Omegas(x: seq<Tfl>, ignoreLast: bool): (omega: seq<real>)
    requires |x| >= 1 && AllPriced(x, ignoreLast)
    ensures |omega| == |x| && Positive(omega)
  {
    var path := OmegaPath(PricedNodes(x, ignoreLast));
    ProdPos(path);
    if ignoreLast then path + [1.0 / Prod(path)] else path
  }

  function ProdOmega(x: seq<Tfl>, ignoreLast: bool): real
    requires |x| >= 1 && AllPriced(x, ignoreLast)
  {
    if ignoreLast then 1.0 else Prod(OmegaPath(PricedNodes(x, false)))
  }

  lemma ProdOfOmegas(x: seq<Tfl>, ignoreLast: bool)
    requires |x| >= 1 && AllPriced(x, ignoreLast)
    ensures Prod(Omegas(x, ignoreLast)) == ProdOmega(x, ignoreLast) > 0.0
  {
    var path := OmegaPath(PricedNodes(x, ignoreLast));
    ProdPos(path);
    if ignoreLast { ProdSnoc(path, 1.0 / Prod(path)); }
  }

  // ---------------------------------------------------------------------------
  // Gains

  /** The gain of each of the `occ` nodes of an owner. */
  function NodeGain(root: RootFunction, gain: real, occ: nat): (k: real)
    requires IsRoot(root) && gain > 0.0 && occ >= 1
    ensures k > 0.0 && Pow(k, occ) == gain
  {
    if occ == 1 then gain else root(gain, occ)
  }

  function OwnerGain(root: RootFunction, prodOmega: real, nbOwn: nat): (gain: real)
    requires IsRoot(root) && prodOmega > 0.0 && nbOwn >= 1
    ensures gain > 0.0 && Pow(gain, nbOwn) == prodOmega
  {
    root(prodOmega, nbOwn)
  }

  ghost predicate ValidGrouping(g: Grouping) {
    && g.nbOwn >= 1
    && (forall i :: 0 <= i < |g.index| ==> g.index[i] < g.nbOwn)
    && (forall c :: 0 <= c < g.nbOwn ==> Count(g.index, c) >= 1)
  }

  lemma CalOwnsValid(own: seq<int>)
    requires |own| >= 1
    ensures ValidGrouping(CalOwns(own)) && |CalOwns(own).index| == |own|
  {
    ClassesPartition(own);
  }

  function NodeGains(root: RootFunction, prodOmega: real, g: Grouping): (s: seq<real>)
    requires IsRoot(root) && prodOmega > 0.0 && ValidGrouping(g)
    ensures |s| == |g.index| && Positive(s)
  {
    var gain := OwnerGain(root, prodOmega, g.nbOwn);
    seq(|g.index|, i requires 0 <= i < |g.index| => NodeGain(root, gain, Count(g.index, g.index[i])))
  }

  function Quotients(a: seq<real>, b: seq<real>): (q: seq<real>)
    requires |a| == |b| && Positive(a) && Positive(b)
    ensures |q| == |a| && Positive(q)
    ensures forall i :: 0 <= i < |q| ==> a[i] == q[i] * b[i]
  {
    seq(|a|, i requires 0 <= i < |a| => Quotient(a[i], b[i]))
  }

  /** Each price divided by the gain of its node. */
  function OmegaCorrige(root: RootFunction, omega: seq<real>, g: Grouping, prodOmega: real): (om: seq<real>)
    requires IsRoot(root) && prodOmega > 0.0 && ValidGrouping(g) && |g.index| == |omega|
    requires Positive(omega)
    ensures |om| == |omega| && Positive(om)
    ensures var k := NodeGains(root, prodOmega, g);
            forall i :: 0 <= i < |om| ==> omega[i] == om[i] * k[i]
  {
    Quotients(omega, NodeGains(root, prodOmega, g))
  }

  /** One more node of a class is one more factor of the class. */
  lemma ClassPower(index: seq<nat>, c: nat, b: real)
    requires |index| > 0
    ensures var n := |index| - 1;
            Pow(b, Count(index, c)) ==
            if index[n] == c then Pow(b, Count(index[..n], c)) * b else Pow(b, Count(index[..n], c))
  {}

  lemma ProdLast(s: seq<real>)
    requires |s| > 0
    ensures Prod(s) == Prod(s[..|s| - 1]) * s[|s| - 1]
  {}

  /** Each class counted to the power of its size. */
  function Powers(index: seq<nat>, k: seq<real>): (t: seq<real>)
    ensures |t| == |k| && forall c :: 0 <= c < |k| ==> t[c] == Pow(k[c], Count(index, c))
  {
    seq(|k|, c requires 0 <= c < |k| => Pow(k[c], Count(index, c)))
  }

  lemma PowersOfNone(k: seq<real>)
    ensures Prod(Powers([], k)) == 1.0 && Prod([]) == 1.0
  {
    ProdConstant(Powers([], k), 1.0);
    PowOfOne(|k|);
  }

  lemma PowersStep(index: seq<nat>, k: seq<real>)
    requires |index| > 0 && index[|index| - 1] < |k|
    ensures Prod(Powers(index, k)) == Prod(Powers(index[..|index| - 1], k)) * k[index[|index| - 1]]
  {
    var n := |index| - 1;
    var u, t := Powers(index[..n], k), Powers(index, k);
    hide *;
    forall c | 0 <= c < |k|
      ensures t[c] == if index[n] == c then u[c] * k[c] else u[c]
    {
      ClassPower(index, c, k[c]);
    }
    ProdScaleOne(u, t, index[n], k[index[n]]);
  }

  /** The product over the nodes of a quantity given by class is the product over
      the classes of its power by the class size. */
  lemma {:induction false} ProductByClass(index: seq<nat>, k: seq<real>, s: seq<real>)
    requires forall i :: 0 <= i < |index| ==> index[i] < |k|
    requires |s| == |index| && forall i :: 0 <= i < |s| ==> s[i] == k[index[i]]
    ensures Prod(s) == Prod(Powers(index, k))
  {
    hide *;
    if |index| == 0 {
      PowersOfNone(k);
    } else {
      var n := |index| - 1;
      ProductByClass(index[..n], k, s[..n]);
      PowersStep(index, k);
      ProdLast(s);
    }
  }

  /** The gains of the nodes multiply to the gain to share. */
  lemma NodeGainsProduct(root: RootFunction, prodOmega: real, g: Grouping)
    requires IsRoot(root) && prodOmega > 0.0 && ValidGrouping(g)
    ensures Prod(NodeGains(root, prodOmega, g)) == prodOmega
  {
    var gain := OwnerGain(root, prodOmega, g.nbOwn);
    var k := seq(g.nbOwn, c requires 0 <= c < g.nbOwn => NodeGain(root, gain, Count(g.index, c)));
    ProductByClass(g.index, k, NodeGains(root, prodOmega, g));
    ProdConstant(Powers(g.index, k), gain);
  }

  /** Owners get equal parts: the nodes of one class have one gain, and the gains of the
      nodes of each class multiply to the same number, whose power by the number of
      classes is the gain of the cycle. */
  lemma OwnersShareEqually(root: RootFunction, prodOmega: real, g: Grouping, i: nat, j: nat)
    requires IsRoot(root) && prodOmega > 0.0 && ValidGrouping(g) && i < |g.index| && j < |g.index|
    ensures var k := NodeGains(root, prodOmega, g);
            && (g.index[i] == g.index[j] ==> k[i] == k[j])
            && Pow(k[i], Count(g.index, g.index[i])) == Pow(k[j], Count(g.index, g.index[j]))
            && Pow(Pow(k[i], Count(g.index, g.index[i])), g.nbOwn) == prodOmega
  {
    hide Pow, Count, IsRoot;
  }

  lemma CorrectedProduct(omega: seq<real>, k: seq<real>, om: seq<real>)
    requires |omega| == |k| == |om|
    requires forall i :: 0 <= i < |om| ==> omega[i] == om[i] * k[i]
    requires Prod(omega) == Prod(k) > 0.0
    ensures Prod(om) == 1.0
  {
    hide Prod;
    ProdMul(om, k, omega);
    OneByCancelling(Prod(omega), Prod(om), Prod(k));
  }

  /** The corrected prices multiply to one: the gain is shared without loss. */
  lemma CorrectedProductIsOne(root: RootFunction, omega: seq<real>, g: Grouping, prodOmega: real)
    requires IsRoot(root) && prodOmega > 0.0 && ValidGrouping(g) && |g.index| == |omega|
    requires Positive(omega) && Prod(omega) == prodOmega
    ensures Prod(OmegaCorrige(root, omega, g, prodOmega)) == 1.0
  {
    hide *;
    NodeGainsProduct(root, prodOmega, g);
    CorrectedProduct(omega, NodeGains(root, prodOmega, g), OmegaCorrige(root, omega, g, prodOmega));
  }

  /** When the prices multiply to at least one, no corrected price is above the
      price of the order. */
  lemma CorrectedAtMostOmega(root: RootFunction, omega: seq<real>, g: Grouping, prodOmega: real, i: nat)
    requires IsRoot(root) && prodOmega >= 1.0 && ValidGrouping(g) && |g.index| == |omega|
    requires Positive(omega) && i < |omega|
    ensures OmegaCorrige(root, omega, g, prodOmega)[i] <= omega[i]
  {
    var gain := OwnerGain(root, prodOmega, g.nbOwn);
    RootAtLeastOne(root, prodOmega, g.nbOwn);
    var occ := Count(g.index, g.index[i]);
    if occ != 1 { RootAtLeastOne(root, gain, occ); }
    DivideByAtLeastOne(omega[i], NodeGain(root, gain, occ));
  }

  lemma OneByCancelling(r: real, p: real, q: real)
    requires r == p * q && r == q && q > 0.0
    ensures p == 1.0
  {
    assert p == r / q;
  }

  lemma DivideByAtLeastOne(a: real, k: real)
    requires a > 0.0 && k >= 1.0
    ensures Quotient(a, k) <= a
  {
    RatioCross(a, k, a, 1.0);
    assert a * 1.0 <= a * k;
  }
}
