/** How the exact flow shares the gain of a cycle between the owners of its orders. */
module Shares {
  import opened Numeric
  import opened FlowTypes
  import opened Owners
  import opened Gains
  import opened ExactFlow
  import opened Kernel
  import opened Guarantees

  // ---------------------------------------------------------------------------
  // The number of owners

  /** The owners of the first n nodes, each counted where it first appears. */
  ghost function NbOwners(own: seq<int>, n: nat): (k: nat)
    requires n <= |own|
    ensures k <= n
  {
    if n == 0 then 0 else NbOwners(own, n - 1) + if FirstAt(own, n - 1) then 1 else 0
  }

  lemma {:induction false} DistinctAreOwners(own: seq<int>, n: nat)
    requires n <= |own| && Distinct(own, n)
    ensures NbOwners(own, n) == n
  {
    if n > 0 { DistinctAreOwners(own, n - 1); }
  }

  /** Past the distinct prefix a class is opened for each new owner. */
  lemma {:induction false} ClassesAreOwners(own: seq<int>, d: nat, n: nat)
    requires d <= n <= |own| && Distinct(own, d) && RepeatersComeFirst(own)
    requires d < |own| ==> !FirstAt(own, d)
    ensures Group(own, n).nbOwn == NbOwners(own, n)
  {
    hide RepeatersComeFirst, Distinct, FirstAt, FindClass, Group;
    if n == d {
      DistinctAreOwners(own, n);
      DistinctPrefixClasses(own, n);
    } else {
      ClassesAreOwners(own, d, n - 1);
      ClassPastPrefix(own, d, n - 1);
      GroupStep(own, n - 1);
      JoinsIsLater(own, d, n - 1);
    }
  }

  /** A node that joins the class of a node before it is not the first of its owner. */
  lemma JoinsIsLater(own: seq<int>, d: nat, n: nat)
    requires d <= n < |own|
    ensures forall c :: 0 <= c < d && own[c] == own[n] ==> !FirstAt(own, n)
  {}

  /** When each owner makes one class, there are as many classes as owners. */
  lemma NbClasses(own: seq<int>)
    requires RepeatersComeFirst(own)
    ensures CalOwns(own).nbOwn == NbOwners(own, |own|)
  {
    var d := LongestDistinct(own, |own|);
    ClassesAreOwners(own, d, |own|);
  }

  // ---------------------------------------------------------------------------
  // The gain of an owner

  /** The gains of the nodes of an owner, among the first n, multiplied. */
  function GainOf(own: seq<int>, k: seq<real>, w: int, n: nat): real
    requires |own| == |k| && n <= |k|
  {
    if n == 0 then 1.0 else GainOf(own, k, w, n - 1) * (if own[n - 1] == w then k[n - 1] else 1.0)
  }

  /** It is the gain of one of its nodes, to the power of the size of its class. */
  lemma {:induction false} GainIsPower(own: seq<int>, index: seq<nat>, k: seq<real>, i: nat, n: nat)
    requires |own| == |index| == |k| && n <= |k| && i < |k| && ExactPrefix(own, index, |own|)
    requires forall j :: 0 <= j < |k| && index[j] == index[i] ==> k[j] == k[i]
    ensures GainOf(own, k, own[i], n) == Pow(k[i], Count(index[..n], index[i]))
  {
    hide Pow, ExactPrefix;
    if n == 0 {
      NoneOfClass(index, k[i], index[i]);
    } else {
      GainIsPower(own, index, k, i, n - 1);
      assert index[..n][..n - 1] == index[..n - 1] && index[..n][n - 1] == index[n - 1];
      ClassPower(index[..n], index[i], k[i]);
      SameClass(own, index, i, n - 1);
    }
  }

  lemma NoneOfClass(index: seq<nat>, b: real, c: nat)
    ensures Pow(b, Count(index[..0], c)) == 1.0
  {}

  lemma SameClass(own: seq<int>, index: seq<nat>, i: nat, j: nat)
    requires |own| == |index| && i < |own| && j < |own| && ExactPrefix(own, index, |own|)
    ensures index[i] == index[j] <==> own[i] == own[j]
  {
    if i != j { assert index[if i < j then i else j] == index[if i < j then j else i] <==> own[i] == own[j]; }
  }

  // ---------------------------------------------------------------------------
  // The gains that the exact flow makes

  /** The gain of each node: how many times it receives what its price asks for what it
      gives. */
  ghost predicate GainsOf(k: seq<real>, omega: seq<real>, f: seq<real>) {
    && |k| == |omega| == |f|
    && forall i :: 0 <= i < |k| ==> GainAt(k, omega, f, i)
  }

  predicate GainAt(k: seq<real>, omega: seq<real>, f: seq<real>, i: nat)
    requires |k| == |omega| == |f| && i < |k|
  {
    k[i] * f[i] == omega[i] * f[Before(i, |f|)]
  }

  /** A factor is found by cancelling. */
  lemma FactorIs(omega: real, om: real, k: real, h: real, reci: real, give: real)
    requires omega == om * k && give == om * reci && h * give == omega * reci && give > 0.0
    ensures h == k
  {
    assert omega * reci == k * give;
    assert (h - k) * give == 0.0;
  }

  /** The gains of the nodes are those computed for their classes. */
  lemma GainsAre(om: seq<real>, c: seq<real>, k: seq<real>, h: seq<real>, f: seq<real>, i: nat)
    requires GainsOf(h, om, f) && |c| == |k| == |f| && i < |f| && Positive(f)
    requires om[i] == c[i] * k[i] && ClosesAt(f, c, i)
    ensures h[i] == k[i]
  {
    assert GainAt(h, om, f, i);
    FactorIs(om[i], c[i], k[i], h[i], f[Before(i, |f|)], f[i]);
  }

  /** The prices, the corrected ones and the gains of the nodes. */
  lemma PricesAre(root: RootFunction, x: seq<Tfl>, ignoreLast: bool)
    requires IsRoot(root) && Ready(x, ignoreLast)
    ensures AllPriced(x, ignoreLast) && ProdOmega(x, ignoreLast) > 0.0
    ensures ValidGrouping(Grouped(x)) && |Grouped(x).index| == |x|
    ensures var om, c := Omegas(x, ignoreLast), Corrected(root, x, ignoreLast);
            var k := NodeGains(root, ProdOmega(x, ignoreLast), Grouped(x));
            |om| == |c| == |k| == |x| && forall i :: 0 <= i < |x| ==> om[i] == c[i] * k[i]
  {
    hide Omegas, ProdOmega, NodeGains, Grouped, IsRoot, Stocked, AllPriced;
    ProdOfOmegas(x, ignoreLast);
  }

  lemma FlowGainsAre(root: RootFunction, x: seq<Tfl>, ignoreLast: bool, h: seq<real>)
    requires IsRoot(root) && Ready(x, ignoreLast) && AllPriced(x, ignoreLast)
    requires GainsOf(h, Omegas(x, ignoreLast), Exact(root, x, ignoreLast))
    ensures ProdOmega(x, ignoreLast) > 0.0
    ensures ValidGrouping(Grouped(x)) && |Grouped(x).index| == |x|
    ensures h == NodeGains(root, ProdOmega(x, ignoreLast), Grouped(x))
  {
    hide *;
    PricesAre(root, x, ignoreLast);
    ExactFits(root, x, ignoreLast);
    var om, c, f := Omegas(x, ignoreLast), Corrected(root, x, ignoreLast), Exact(root, x, ignoreLast);
    var k := NodeGains(root, ProdOmega(x, ignoreLast), Grouped(x));
    SameLength(h, om, f);
    forall i | 0 <= i < |x|
      ensures h[i] == k[i]
    {
      ExactCloses(root, x, ignoreLast, i);
      GainsAre(om, c, k, h, f, i);
    }
  }

  lemma SameLength(k: seq<real>, omega: seq<real>, f: seq<real>)
    requires GainsOf(k, omega, f)
    ensures |k| == |omega| == |f|
  {}

  /** When each owner that comes back first appears before any other one has come back,
      the exact flow gives every owner the same gain, all its orders taken together, and
      every order of one owner the same one. The gain of the cycle is that of an owner to
      the power of the number of owners. */
  lemma OwnersGainEqually(root: RootFunction, x: seq<Tfl>, ignoreLast: bool, own: seq<int>, k: seq<real>, i: nat,
                          j: nat)
    requires IsRoot(root) && Ready(x, ignoreLast) && AllPriced(x, ignoreLast) && i < |x| && j < |x|
    requires |own| == |x| && forall h :: 0 <= h < |x| ==> own[h] == x[h].own
    requires RepeatersComeFirst(own) && GainsOf(k, Omegas(x, ignoreLast), Exact(root, x, ignoreLast))
    ensures |k| == |x| && Positive(Exact(root, x, ignoreLast))
    ensures Pow(GainOf(own, k, own[i], |x|), NbOwners(own, |x|)) == ProdOmega(x, ignoreLast)
    ensures GainOf(own, k, own[i], |x|) == GainOf(own, k, own[j], |x|)
    ensures own[i] == own[j] ==> k[i] == k[j]
  {
    hide *;
    FlowGainsAre(root, x, ignoreLast, k);
    ExactFits(root, x, ignoreLast);
    var g, p := Grouped(x), ProdOmega(x, ignoreLast);
    GroupedIs(x, own);
    NbClasses(own);
    OneClassPerOwnerIff(own);
    OneClassIs(own);
    GainOfNode(root, p, g, own, i);
    GainOfNode(root, p, g, own, j);
    SameClass(own, g.index, i, j);
    OwnersShareEqually(root, p, g, i, j);
  }

  lemma GroupedIs(x: seq<Tfl>, own: seq<int>)
    requires |x| >= 1 && |own| == |x| && forall h :: 0 <= h < |x| ==> own[h] == x[h].own
    ensures Grouped(x) == CalOwns(own) && |Grouped(x).index| == |x|
  {
    assert own == OwnersOf(x);
  }

  lemma OneClassIs(own: seq<int>)
    requires OneClassPerOwner(own) && |CalOwns(own).index| == |own|
    ensures ExactPrefix(own, CalOwns(own).index, |own|)
  {}

  lemma GainOfNode(root: RootFunction, p: real, g: Grouping, own: seq<int>, i: nat)
    requires IsRoot(root) && p > 0.0 && ValidGrouping(g) && i < |g.index| == |own|
    requires ExactPrefix(own, g.index, |own|)
    ensures var k := NodeGains(root, p, g);
            GainOf(own, k, own[i], |own|) == Pow(k[i], Count(g.index, g.index[i]))
  {
    hide *;
    var k := NodeGains(root, p, g);
    forall j | 0 <= j < |k| && g.index[j] == g.index[i]
      ensures k[j] == k[i]
    {
      OwnersShareEqually(root, p, g, i, j);
    }
    GainIsPower(own, g.index, k, i, |own|);
    assert g.index[..|own|] == g.index;
  }
}
