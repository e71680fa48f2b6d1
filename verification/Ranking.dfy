/** Which cycle is executed first: the one whose prices have the greatest product,
    whatever the aggregate makes of it. */
module Ranking {
  import opened Numeric
  import opened FlowTypes
  import opened Yflow
  import opened Search
  import opened Matching
  import opened MarketRuns
  import opened Primitives
  import Conservation

  // ---------------------------------------------------------------------------
  // Comparing two cycles

  /** The number of nodes whose price counts: an ignored last price does not. */
  function Counted(f: Tflow): (n: nat)
    requires |f.x| >= 2
    ensures n <= |f.x|
  {
    if IsIgnoreOmega(f.x[|f.x| - 1].kind) then |f.x| - 1 else |f.x|
  }

  /** What each order gives at most for one unit received. */
  function Prices(f: Tflow): (w: seq<real>)
    requires IsDraft(f) && Rankable(f)
    ensures |w| == Counted(f)
    ensures forall i :: 0 <= i < |w| ==> w[i] == f.x[i].qttProv as real / f.x[i].qttRequ as real
  {
    seq(Counted(f), i requires 0 <= i < Counted(f) => f.x[i].qttProv as real / f.x[i].qttRequ as real)
  }

  function Probas(f: Tflow): (p: seq<real>)
    ensures |p| == |f.x| && forall i :: 0 <= i < |p| ==> p[i] == f.x[i].proba
  {
    seq(|f.x|, i requires 0 <= i < |f.x| => f.x[i].proba)
  }

  /** The geometric mean of p over m factors is at most that of q over n factors. */
  predicate MeanAtMost(p: real, m: nat, q: real, n: nat) {
    Pow(p, n) <= Pow(q, m)
  }

  /** The prices of f have a smaller product than those of g; or the same, and the
      probabilities of f have at most the mean of those of g. */
  predicate AtMost(f: Tflow, g: Tflow)
    requires IsDraft(f) && Rankable(f) && IsDraft(g) && Rankable(g)
  {
    Prod(Prices(f)) < Prod(Prices(g)) ||
    (Prod(Prices(f)) == Prod(Prices(g)) && MeanAtMost(Prod(Probas(f)), |f.x|, Prod(Probas(g)), |g.x|))
  }

  /** Row k is the last of the greatest ones. */
  ghost predicate IsBest(fs: seq<Tflow>, k: nat)
    requires AllRanked(fs) && AllDrafts(fs)
  {
    && k < |fs|
    && (forall j :: 0 <= j < |fs| ==> AtMost(fs[j], fs[k]))
    && (forall j :: k < j < |fs| ==> !AtMost(fs[k], fs[j]))
  }

  lemma {:induction false} PowTimes(a: real, b: real, n: nat)
    ensures Pow(a * b, n) == Pow(a, n) * Pow(b, n)
  {
    if n > 0 {
      PowTimes(a, b, n - 1);
      var p, q := Pow(a, n - 1), Pow(b, n - 1);
      assert a * b * (p * q) == a * p * (b * q);
    }
  }

  lemma {:induction false} PowSwap(a: real, m: nat, n: nat)
    ensures Pow(Pow(a, m), n) == Pow(Pow(a, n), m)
  {
    if m == 0 {
      PowOfOne(n);
    } else {
      PowSwap(a, m - 1, n);
      var t, u := Pow(a, m - 1), Pow(a, n);
      PowNext(a, m);
      PowNext(u, m);
      PowTimes(a, t, n);
      hide Pow;
      assert Pow(a * t, n) == u * Pow(u, m - 1);
      assert a * t == Pow(a, m);
    }
  }

  lemma PowNext(a: real, m: nat)
    requires m > 0
    ensures Pow(a, m) == a * Pow(a, m - 1)
  {}

  /** Comparing the roots is comparing the powers. */
  lemma RootsCompare(r: real, m: nat, s: real, n: nat)
    requires r > 0.0 && s > 0.0 && m >= 1 && n >= 1
    ensures r <= s <==> Pow(Pow(r, m), n) <= Pow(Pow(s, n), m)
  {
    PowSwap(s, n, m);
    PowPos(r, m);
    PowPos(s, m);
    hide Pow;
    if r <= s {
      PowMono(r, s, m);
      PowMono(Pow(r, m), Pow(s, m), n);
    } else {
      PowStrict(s, r, m);
      PowStrict(Pow(s, m), Pow(r, m), n);
    }
  }

  // ---------------------------------------------------------------------------
  // The rank is the product of the prices

  lemma {:induction false} PriceProductIs(f: Tflow, w: seq<real>, n: nat)
    requires n <= |w| <= |f.x|
    requires forall i :: 0 <= i < |w| ==> f.x[i].qttRequ > 0 && f.x[i].qttProv > 0
    requires forall i :: 0 <= i < |w| ==> w[i] == f.x[i].qttProv as real / f.x[i].qttRequ as real
    ensures PriceProduct(f.x, n) == Prod(w[..n])
  {
    if n > 0 {
      PriceProductIs(f, w, n - 1);
      ProdTake(w, n - 1);
    }
  }

  lemma RankIsProduct(f: Tflow)
    requires IsDraft(f) && Rankable(f)
    ensures OmegaFlow(f) == Prod(Prices(f)) > 0.0
  {
    var w := Prices(f);
    PriceProductIs(f, w, |w|);
    assert w[..|w|] == w;
    hide PriceProduct, Prod, Prices;
  }

  lemma {:induction false} ProbaProductIs(f: Tflow, n: nat)
    requires Probable(f) && n <= |f.x|
    ensures ProbaProduct(f.x, n) == Prod(Probas(f)[..n])
  {
    if n > 0 {
      ProbaProductIs(f, n - 1);
      ProdTake(Probas(f), n - 1);
    }
  }

  lemma MeanIs(root: RootFunction, f: Tflow)
    requires IsRoot(root) && Probable(f) && |f.x| >= 1
    ensures var p, r := Prod(Probas(f)), MeanProba(root, f);
            p >= 0.0 && (p == 0.0 ==> r == 0.0) && (p > 0.0 ==> r > 0.0 && Pow(r, |f.x|) == p)
  {
    ProbaProductIs(f, |f.x|);
    assert Probas(f)[..|f.x|] == Probas(f);
    hide Prod, ProbaProduct, Pow;
  }

  lemma {:induction false} PowZero(n: nat)
    requires n >= 1
    ensures Pow(0.0, n) == 0.0
  {}

  /** The means of two flows compare as their powers. */
  lemma MeansCompare(root: RootFunction, f: Tflow, g: Tflow)
    requires IsRoot(root) && Probable(f) && Probable(g) && |f.x| >= 1 && |g.x| >= 1
    ensures MeanProba(root, f) <= MeanProba(root, g) <==>
            MeanAtMost(Prod(Probas(f)), |f.x|, Prod(Probas(g)), |g.x|)
  {
    MeanIs(root, f);
    MeanIs(root, g);
    var p, q := Prod(Probas(f)), Prod(Probas(g));
    hide Prod, MeanProba, Probas;
    if p > 0.0 && q > 0.0 {
      RootsCompare(MeanProba(root, f), |f.x|, MeanProba(root, g), |g.x|);
      hide Pow;
    } else {
      PowZero(|f.x|);
      PowZero(|g.x|);
      if p > 0.0 { PowPos(p, |g.x|); }
      if q > 0.0 { PowPos(q, |f.x|); }
      hide Pow;
    }
  }

  /** The step of the aggregate prefers the first flow exactly when it is not at most the
      second. */
  lemma AboveIff(root: RootFunction, f: Tflow, g: Tflow)
    requires IsRoot(root) && IsDraft(f) && IsDraft(g)
    requires Rankable(f) && Rankable(g) && Probable(f) && Probable(g)
    ensures Above(root, f, g) <==> !AtMost(f, g)
  {
    RankIsProduct(f);
    RankIsProduct(g);
    MeansCompare(root, f, g);
    hide OmegaFlow, MeanProba, Prod, Prices, Probas, MeanAtMost, IsDraft, Rankable, Probable;
    assert |f.x| >= 1 && |g.x| >= 1;
  }

  lemma AtMostThrough(root: RootFunction, f: Tflow, g: Tflow, h: Tflow)
    requires IsRoot(root) && IsDraft(f) && IsDraft(g) && IsDraft(h)
    requires Rankable(f) && Rankable(g) && Rankable(h) && Probable(f) && Probable(g) && Probable(h)
    requires AtMost(f, g) && AtMost(g, h)
    ensures AtMost(f, h) && (AtMost(h, f) ==> AtMost(h, g))
  {
    AboveIff(root, f, g);
    AboveIff(root, g, h);
    AboveIff(root, f, h);
    AboveIff(root, h, f);
    AboveIff(root, h, g);
    hide OmegaFlow, MeanProba, AtMost, IsDraft, Rankable, Probable;
  }

  /** Two flows can be compared, and a flow with itself. */
  lemma OneIsAtMost(root: RootFunction, f: Tflow, g: Tflow)
    requires IsRoot(root) && IsDraft(f) && IsDraft(g)
    requires Rankable(f) && Rankable(g) && Probable(f) && Probable(g)
    ensures AtMost(f, g) || AtMost(g, f)
  {
    AboveIff(root, f, g);
    AboveIff(root, g, f);
    hide OmegaFlow, MeanProba, AtMost, IsDraft, Rankable, Probable;
  }

  lemma DraftHasRank(f: Tflow)
    requires IsDraft(f) && Rankable(f)
    ensures OmegaFlow(f) > 0.0
  {
    RankIsProduct(f);
  }

  /** Over drafts, the aggregate is the last of those whose prices have the greatest
      product, the mean probability deciding between equal products. */
  lemma {:induction false} AggregateIsBest(root: RootFunction, fs: seq<Tflow>) returns (k: nat)
    requires IsRoot(root) && AllRanked(fs) && AllDrafts(fs) && fs != []
    ensures IsBest(fs, k) && MaxFlow(root, fs) == fs[k]
  {
    var n := |fs| - 1;
    hide AtMost, OmegaFlow, MeanProba, IsRoot, IsDraft, Rankable, Probable, Above;
    var init, f := fs[..n], fs[n];
    if n == 0 {
      assert init == [];
      NothingRanked(root);
      MaxGForgets(root, EMPTY_FLOW, f);
      OneIsAtMost(root, f, f);
      k := 0;
    } else {
      k := AggregateIsBest(root, init);
      var g := fs[k];
      DraftHasRank(f);
      DraftHasRank(g);
      AboveIff(root, g, f);
      AboveIff(root, f, g);
      OneIsAtMost(root, f, f);
      forall j | 0 <= j < n && AtMost(g, f)
        ensures AtMost(fs[j], f)
      {
        assert fs[j] == init[j];
        AtMostThrough(root, fs[j], g, f);
      }
      OneIsAtMost(root, f, g);
      if AtMost(g, f) { k := n; }
    }
  }

  // ---------------------------------------------------------------------------
  // The cycles that a loop executes

  /** The loop takes at each turn the last of the greatest rows, as long as there is one
      and at most 128 movements are made. */
  ghost predicate TakesBest(root: RootFunction, tmp: seq<Tflow>, moved: nat, cs: seq<Tflow>)
    requires IsRoot(root) && AllExecutable(tmp)
    decreases |cs|
  {
    ExecutableRanked(tmp);
    if cs == [] then tmp == [] || exists k: nat :: IsBest(tmp, k) && moved + |tmp[k].x| > 128
    else (exists k: nat :: IsBest(tmp, k) && tmp[k] == cs[0]) && TakesFirst(root, tmp, moved, cs)
  }

  /** The others are reduced by the first one, and the loop goes on with the drafts. */
  ghost predicate TakesFirst(root: RootFunction, tmp: seq<Tflow>, moved: nat, cs: seq<Tflow>)
    requires IsRoot(root) && AllExecutable(tmp) && cs != []
    decreases |cs|, 0
  {
    && moved + |cs[0].x| <= 128
    && Executable(cs[0]) && UpdateAll(root, tmp, cs[0], false).Ok?
    && var ds := Drafts(UpdateAll(root, tmp, cs[0], false).value);
       AllExecutable(ds) && TakesBest(root, ds, moved + |cs[0].x|, cs[1..])
  }

  lemma BestIsBest(root: RootFunction, tmp: seq<Tflow>) returns (k: nat)
    requires IsRoot(root) && AllExecutable(tmp) && tmp != []
    ensures AllRanked(tmp) && AllDrafts(tmp) && IsBest(tmp, k) && tmp[k] == Best(root, tmp)
  {
    ExecutableRanked(tmp);
    hide Executable, MaxFlow, IsBest, AllRanked, AllDrafts;
    k := AggregateIsBest(root, tmp);
    BestIsMax(root, tmp);
    InRange(tmp, k);
  }

  lemma BestIsMax(root: RootFunction, tmp: seq<Tflow>)
    requires AllExecutable(tmp) && AllRanked(tmp)
    ensures Best(root, tmp) == MaxFlow(root, tmp)
  {
    hide Executable, MaxFlow;
  }

  lemma InRange(fs: seq<Tflow>, k: nat)
    requires AllRanked(fs) && AllDrafts(fs) && IsBest(fs, k)
    ensures k < |fs|
  {}

  lemma {:induction false} MatchTakesBest(root: RootFunction, tmp: seq<Tflow>, moved: nat)
    requires IsRoot(root) && AllExecutable(tmp) && MatchLoop(root, tmp, moved, false).Ok?
    ensures TakesBest(root, tmp, moved, MatchLoop(root, tmp, moved, false).value)
    decreases |tmp|
  {
    hide *;
    Limit();
    if tmp == [] {
      LoopStops(root, tmp, moved, false);
      NoneTaken(root, moved);
    } else {
      var best := Best(root, tmp);
      var k := BestIsBest(root, tmp);
      InRange(tmp, k);
      BestIsDraft(root, tmp);
      if moved + |best.x| > MAXMVTPERTRANS {
        LoopStops(root, tmp, moved, false);
        TakesNone(root, tmp, moved, k);
      } else {
        LoopUpdates(root, tmp, moved);
        LoopGoesOn(root, tmp, moved, false);
        var ds := Drafts(UpdateAll(root, tmp, best, false).value);
        MatchTakesBest(root, ds, moved + |best.x|);
        var rest := MatchLoop(root, ds, moved + |best.x|, false).value;
        TakesAnother(root, tmp, moved, best, rest, k);
      }
    }
  }

  lemma Limit()
    ensures MAXMVTPERTRANS == 128
  {}

  lemma LoopUpdates(root: RootFunction, tmp: seq<Tflow>, moved: nat)
    requires IsRoot(root) && AllExecutable(tmp) && tmp != [] && MatchLoop(root, tmp, moved, false).Ok?
    requires moved + |Best(root, tmp).x| <= MAXMVTPERTRANS
    ensures UpdateAll(root, tmp, Best(root, tmp), false).Ok?
  {
    hide Best, AllExecutable, Executable, IsRoot, UpdateAll, Drafts;
  }

  lemma NoneTaken(root: RootFunction, moved: nat)
    requires IsRoot(root) && AllExecutable([])
    ensures TakesBest(root, [], moved, [])
  {}

  lemma TakesNone(root: RootFunction, tmp: seq<Tflow>, moved: nat, k: nat)
    requires IsRoot(root) && AllExecutable(tmp) && AllRanked(tmp) && AllDrafts(tmp)
    requires IsBest(tmp, k) && k < |tmp| && moved + |tmp[k].x| > 128
    ensures TakesBest(root, tmp, moved, [])
  {
    hide IsBest, AllRanked, AllDrafts, AllExecutable;
  }

  lemma TakesAnother(root: RootFunction, tmp: seq<Tflow>, moved: nat, best: Tflow, rest: seq<Tflow>, k: nat)
    requires IsRoot(root) && AllExecutable(tmp) && AllRanked(tmp) && AllDrafts(tmp)
    requires IsBest(tmp, k) && k < |tmp| && tmp[k] == best && moved + |best.x| <= 128
    requires Executable(best) && UpdateAll(root, tmp, best, false).Ok?
    requires var ds := Drafts(UpdateAll(root, tmp, best, false).value);
             AllExecutable(ds) && TakesBest(root, ds, moved + |best.x|, rest)
    ensures TakesBest(root, tmp, moved, [best] + rest)
  {
    hide IsBest, AllRanked, AllDrafts, AllExecutable, Executable, UpdateAll, Drafts;
    var cs := [best] + rest;
    assert cs[0] == best && cs[1..] == rest;
    assert TakesFirst(root, tmp, moved, cs);
  }

  /** The insertion of an order executes at each turn, of the cycles found and left, one
      whose prices have the greatest product. */
  lemma InsertionTakesBest(root: RootFunction, m: Market, r: Row, now: int)
    requires IsRoot(root) && ValidBook(m.torder) && NewOrder(m.torder, r.ord)
    requires InsertOrder(root, m, r, now).Ok?
    ensures var t := FcreateTmp(root, m.torder, r.ord, now);
            t.Ok? && AllExecutable(t.value) && TakesBest(root, t.value, 0, InsertOrder(root, m, r, now).value.cycles)
  {
    hide *;
    var cs := InsertOrderRuns(root, m, r, now, "");
    CyclesHave(root, m.torder, r.ord, now, cs);
    CyclesOfInserted(m, r, cs, InsertOrder(root, m, r, now).value);
    MatchTakesBest(root, FcreateTmp(root, m.torder, r.ord, now).value, 0);
  }

  lemma CyclesOfInserted(m: Market, r: Row, cs: seq<Tflow>, e: Outcome)
    requires Inserted(m, r, cs, e, "")
    ensures e.cycles == cs
  {
    hide ValidBook, Conservation.Held;
  }
}
