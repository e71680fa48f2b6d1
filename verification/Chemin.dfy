/** The flow kernel as it runs: loops that fill the vectors of a path in place. */
module Chemin {
  import opened Numeric
  import opened FlowTypes
  import opened Owners
  import opened Gains
  import opened ExactFlow
  import opened Rounding
  import opened Kernel
  import Guarantees

  /** The working vectors of a cycle. The first n entries are in use, for a cycle
      of n nodes; x and flowr are the flow itself. */
  class TresChemin {
    const x: array<Tfl>
    const flowr: array<int>
    const occOwn: array<nat>
    const ownIndex: array<nat>
    const omega: array<real>
    const omegaCorrige: array<real>
    const piom: array<real>
    const fluxExact: array<real>
    const floor: array<int>
    const flowNodes: array<int>
    var nbOwn: nat
    var kind: CycleKind
    var status: Status

    ghost predicate Valid() {
      && 2 <= x.Length <= FLOW_MAX_DIM
      && flowr.Length == x.Length
      && occOwn.Length == ownIndex.Length == FLOW_MAX_DIM
      && omega.Length == omegaCorrige.Length == piom.Length == fluxExact.Length == FLOW_MAX_DIM
      && floor.Length == flowNodes.Length == FLOW_MAX_DIM
      && occOwn != ownIndex
      && omega != omegaCorrige && omega != piom && omega != fluxExact
      && omegaCorrige != piom && omegaCorrige != fluxExact && piom != fluxExact
      && flowr != floor && flowr != flowNodes && floor != flowNodes
    }

    constructor (x: array<Tfl>, flowr: array<int>)
      requires 2 <= x.Length <= FLOW_MAX_DIM && flowr.Length == x.Length
      ensures Valid() && this.x == x && this.flowr == flowr
      ensures fresh(occOwn) && fresh(ownIndex) && fresh(omega) && fresh(omegaCorrige)
      ensures fresh(piom) && fresh(fluxExact) && fresh(floor) && fresh(flowNodes)
      ensures status == Undefined
    {
      this.x := x;
      this.flowr := flowr;
      occOwn := new nat[FLOW_MAX_DIM];
      ownIndex := new nat[FLOW_MAX_DIM];
      omega := new real[FLOW_MAX_DIM];
      omegaCorrige := new real[FLOW_MAX_DIM];
      piom := new real[FLOW_MAX_DIM];
      fluxExact := new real[FLOW_MAX_DIM];
      floor := new int[FLOW_MAX_DIM];
      flowNodes := new int[FLOW_MAX_DIM];
      nbOwn, kind, status := 0, CycleBest, Undefined;
    }

    /** Looks for an order that is LIMIT. */
    method CalType() returns (k: CycleKind)
      requires Valid()
      ensures k == Kernel.CalType(x[..])
    {
      k := CycleBest;
      for i := 0 to x.Length
        invariant k == CycleBest
        invariant forall j :: 0 <= j < i ==> !x[j].IsLimit()
      {
        if OrderType(x[i].kind) == ORDER_LIMIT {
          assert x[..][i].IsLimit();
          k := CycleLimit;
          break;
        }
      }
    }

    /** Fills omega for the nodes whose price is read, and returns their product. */
    method OmegaOfPath(ghost y: seq<Tfl>, ldim: nat) returns (r: Result<real>)
      requires Valid() && ldim <= x.Length && y == x[..ldim]
      modifies omega
      ensures r.Err? ==> r.error == ZeroPrice && exists i :: 0 <= i < ldim && !Priced(y[i])
      ensures r.Ok? ==> forall i :: 0 <= i < ldim ==> Priced(y[i])
      ensures r.Ok? ==> omega[..ldim] == OmegaPath(y) && r.value == Prod(OmegaPath(y))
    {
      hide Prod;
      var prod := 1.0;
      EmptyProd(omega[..0]);
      for i := 0 to ldim
        invariant forall j :: 0 <= j < i ==> Priced(y[j]) && omega[j] == Omega(y[j])
        invariant prod == Prod(omega[..i])
      {
        assert y[i] == x[i];
        if x[i].qttProv == 0 || x[i].qttRequ == 0 || x[i].proba == 0.0 {
          return Err(ZeroPrice);
        }
        ghost var before := omega[..i];
        omega[i] := x[i].qttProv as real / x[i].qttRequ as real;
        prod := prod * omega[i];
        assert omega[..i + 1] == before + [omega[i]];
        ProdSnoc(before, omega[i]);
      }
      assert omega[..ldim] == OmegaPath(y);
      r := Ok(prod);
    }

    /** Fills omega and returns the product of the prices; an ignored last price
        is set so that the product is one. */
    method CalOmega(ignoreLast: bool) returns (r: Result<real>)
      requires Valid()
      modifies omega
      ensures r.Ok? <==> AllPriced(x[..], ignoreLast)
      ensures r.Err? ==> r.error == ZeroPrice
      ensures r.Ok? ==> omega[..x.Length] == Omegas(x[..], ignoreLast)
      ensures r.Ok? ==> r.value == ProdOmega(x[..], ignoreLast)
    {
      var ldim := if ignoreLast then x.Length - 1 else x.Length;
      ghost var y := PricedNodes(x[..], ignoreLast);
      assert y == x[..ldim];
      r := OmegaOfPath(y, ldim);
      if r.Ok? && ignoreLast {
        ProdPos(OmegaPath(y));
        hide Prod;
        omega[ldim] := 1.0 / r.value;
        assert omega[..x.Length] == OmegaPath(y) + [1.0 / Prod(OmegaPath(y))];
        r := Ok(1.0);
      }
    }

    /** Looks the owner of node n up in the nodes numbered below nbOwn. */
    method FindOwner(n: nat) returns (c: nat)
      requires Valid() && n < x.Length && nbOwn <= n
      ensures c == FindClass(OwnersOf(x[..]), n, 0, nbOwn)
    {
      ghost var own := OwnersOf(x[..]);
      c := nbOwn;
      for m := 0 to nbOwn
        invariant c == nbOwn
        invariant FindClass(own, n, 0, nbOwn) == FindClass(own, n, m, nbOwn)
      {
        if x[n].own == x[m].own {
          c := m;
          break;
        }
      }
    }

    /** The first n nodes are grouped. */
    ghost predicate GroupedUpTo(own: seq<int>, n: nat)
      requires Valid() && n <= x.Length && |own| == x.Length
      reads `nbOwn, occOwn, ownIndex
    {
      && nbOwn == Group(own, n).nbOwn
      && ownIndex[..n] == Group(own, n).index
      && occOwn[..nbOwn] == Occurrences(Group(own, n))
    }

    /** Groups the nodes by owner. */
    method CalOwns()
      requires Valid()
      modifies `nbOwn, occOwn, ownIndex
      ensures GroupedUpTo(OwnersOf(x[..]), x.Length)
    {
      ghost var own := OwnersOf(x[..]);
      nbOwn := 0;
      EmptyOccurrences(own);
      hide Group, OwnersOf, GroupedUpTo;
      for n := 0 to x.Length
        invariant GroupedUpTo(own, n)
      {
        Enrol(n, own);
      }
    }

    /** Puts node n in the class found for its owner, or in a new one. */
    method Enrol(n: nat, ghost own: seq<int>)
      requires Valid() && n < x.Length && own == OwnersOf(x[..]) && GroupedUpTo(own, n)
      modifies `nbOwn, occOwn, ownIndex
      ensures GroupedUpTo(own, n + 1)
    {
      hide FindClass, Occurrences, OwnersOf, Group;
      GroupStep(own, n);
      OccurrencesStep(own, n);
      var c := FindOwner(n);
      Tally(c);
      ownIndex[n] := c;
    }

    /** One more node in class c, which is new when c is the number of classes. */
    method Tally(c: nat)
      requires Valid() && c <= nbOwn < FLOW_MAX_DIM
      modifies `nbOwn, occOwn
      ensures nbOwn == if c == old(nbOwn) then old(nbOwn) + 1 else old(nbOwn)
      ensures occOwn[..nbOwn] ==
              if c == old(nbOwn) then old(occOwn[..nbOwn]) + [1]
              else old(occOwn[..nbOwn])[c := old(occOwn[..nbOwn])[c] + 1]
    {
      if c == nbOwn {
        occOwn[c] := 0;
        nbOwn := nbOwn + 1;
      }
      occOwn[c] := occOwn[c] + 1;
    }

    /** Divides each price by the gain of its node. */
    method CalGains(root: RootFunction, prodOmega: real)
      requires Valid() && IsRoot(root) && prodOmega > 0.0
      requires GroupedUpTo(OwnersOf(x[..]), x.Length)
      requires Positive(omega[..x.Length])
      modifies omegaCorrige
      ensures omegaCorrige[..x.Length] == OmegaCorrige(root, omega[..x.Length], Grouped(x[..]), prodOmega)
    {
      var n := x.Length;
      ghost var g := Grouped(x[..]);
      ghost var om := OmegaCorrige(root, omega[..n], g, prodOmega);
      var gain := root(prodOmega, nbOwn);
      hide IsRoot, Occurrences, Group, Grouped, OwnersOf, ValidGrouping, Positive;
      for i := 0 to n
        invariant forall j :: 0 <= j < i ==> omegaCorrige[j] == om[j]
      {
        var occ := occOwn[ownIndex[i]];
        assert occ == Count(g.index, g.index[i]) >= 1;
        if occ == 1 {
          omegaCorrige[i] := omega[i] / gain;
        } else {
          omegaCorrige[i] := omega[i] / root(gain, occ);
        }
      }
      assert omegaCorrige[..n] == om;
    }

    /** Fills piom with the products of the corrected prices. */
    method CalPiom(ghost om: seq<real>)
      requires Valid() && om == omegaCorrige[..x.Length] && Positive(om)
      modifies piom
      ensures piom[..x.Length] == Piom(om)
    {
      var n := x.Length;
      for i := 0 to n
        invariant forall j :: 0 <= j < i ==> piom[j] == PrefixProduct(om, j)
      {
        var p := PathProduct(i, om);
        piom[i] := p;
      }
      assert piom[..n] == Piom(om);
    }

    /** The product of the corrected prices of the nodes 1 to i. */
    method PathProduct(i: nat, ghost om: seq<real>) returns (p: real)
      requires Valid() && i < x.Length && om == omegaCorrige[..x.Length] && Positive(om)
      ensures p == PrefixProduct(om, i)
    {
      hide Prod;
      p := 1.0;
      EmptyProd(om[1..1]);
      for k := 0 to i
        invariant p == Prod(om[1..k + 1])
      {
        assert om[1..k + 2] == om[1..k + 1] + [om[k + 1]];
        ProdSnoc(om[1..k + 1], om[k + 1]);
        p := p * omegaCorrige[k + 1];
      }
    }

    /** The least flow at node 0 that exhausts a stock, and the node of that stock. */
    method TightestNode(ghost y: seq<Tfl>, ghost pi: seq<real>) returns (min: real, node: nat)
      requires Valid() && y == x[..] && Stocked(y) && pi == piom[..x.Length] && Positive(pi)
      ensures Tightest(min, node) == TightestOf(y, pi, x.Length)
    {
      hide Quotient, Exhausting;
      min, node := -1.0, 0;
      for i := 0 to x.Length
        invariant Tightest(min, node) == TightestOf(y, pi, i)
      {
        assert y[i] == x[i] && pi[i] == piom[i];
        if x[i].qtt != QTTFLOW_UNDEFINED {
          var cour := Exhausting(x[i], piom[i]);
          if min == -1.0 || cour < min {
            min := cour;
            node := i;
          }
        }
      }
    }

    /** Fills fluxExact with the largest proportional flow, and returns the node
        it exhausts. */
    method FlowMaximum(ghost y: seq<Tfl>, ghost pi: seq<real>) returns (exhausted: nat)
      requires Valid() && y == x[..] && Stocked(y) && pi == piom[..x.Length] && Positive(pi)
      modifies fluxExact
      ensures fluxExact[..x.Length] == FluxExact(y, pi)
      ensures exhausted == ExhaustedNode(y, pi)
    {
      var min;
      min, exhausted := TightestNode(y, pi);
      ghost var f := Scaled(min, pi);
      hide TightestOf, Exhausting, Stocked, Positive;
      for j := 0 to x.Length
        invariant forall k :: 0 <= k < j ==> fluxExact[k] == f[k]
      {
        assert f[j] == min * piom[j];
        fluxExact[j] := min * piom[j];
      }
      assert fluxExact[..x.Length] == f;
    }

    /** Fills floor with the floors of the exact flow, the exhausted node taking
        its whole stock. */
    method CalFloor(exhausted: nat, ghost y: seq<Tfl>, ghost exact: seq<real>) returns (r: Result<()>)
      requires Valid() && y == x[..] && exact == fluxExact[..x.Length]
      modifies floor
      ensures r.Ok? ==> FloorsUpTo(y, exact, exhausted, x.Length) == Ok(floor[..x.Length])
      ensures r.Err? ==> FloorsUpTo(y, exact, exhausted, x.Length) == Err(r.error)
    {
      NoFloors(y, exact, exhausted);
      hide FloorsUpTo, FloorInt64;
      for i := 0 to x.Length
        invariant FloorsUpTo(y, exact, exhausted, i) == Ok(floor[..i])
      {
        assert y[i] == x[i] && exact[i] == fluxExact[i];
        ghost var before := floor[..i];
        ghost var one := FloorOf(y[i], exact[i], i == exhausted);
        NextFloor(y, exact, exhausted, i, before, one);
        var f := FloorInt64(fluxExact[i]);
        if f.Err? {
          return Err(f.error);
        }
        floor[i] := f.value;
        if i == exhausted {
          if x[i].qtt == QTTFLOW_UNDEFINED {
            return Err(ExhaustedUndefined);
          }
          floor[i] := x[i].qtt;
          if f.value > floor[i] {
            return Err(ShouldExhaust);
          }
        }
        assert floor[..i + 1] == before + [floor[i]];
      }
      r := Ok(());
    }

    /** Fills flowNodes with a vertex of the cube. */
    method ObtainVertex(mat: nat)
      requires Valid()
      modifies flowNodes
      ensures flowNodes[..x.Length] == Vertex(floor[..x.Length], mat)
    {
      hide BitSetInMatrix;
      for j := 0 to x.Length
        invariant forall k :: 0 <= k < j ==>
                    flowNodes[k] == floor[k] + if BitSetInMatrix(mat, k) then 1 else 0
      {
        flowNodes[j] := floor[j];
        if BitSetInMatrix(mat, j) {
          flowNodes[j] := flowNodes[j] + 1;
        }
      }
    }

    method CheckStocks() returns (b: bool)
      requires Valid()
      ensures b == StockAllows(x[..], flowNodes[..x.Length])
    {
      ghost var y, v := x[..], flowNodes[..x.Length];
      for k := 0 to x.Length
        invariant forall j :: 0 <= j < k && IsDefined(y[j]) ==> v[j] <= y[j].qtt
      {
        assert y[k] == x[k] && v[k] == flowNodes[k];
        if x[k].qtt != QTTFLOW_UNDEFINED && x[k].qtt < flowNodes[k] {
          return false;
        }
      }
      b := true;
    }

    method CheckLimits(ignoreLast: bool) returns (b: bool)
      requires Valid()
      ensures b == LimitsObserved(x[..], omega[..x.Length], flowNodes[..x.Length], ignoreLast)
    {
      ghost var y, om, v := x[..], omega[..x.Length], flowNodes[..x.Length];
      hide RatioWithin;
      var kp := x.Length - 1;
      for k := 0 to x.Length
        invariant 0 <= kp < x.Length && (k < x.Length ==> kp == Before(k, x.Length))
        invariant forall j :: 0 <= j < k ==> NodeLimitObserved(y, om, v, ignoreLast, j)
      {
        assert y[k] == x[k] && v[k] == flowNodes[k] && v[kp] == flowNodes[kp] && om[k] == omega[k];
        if x[k].IsLimit() && !(ignoreLast && k == x.Length - 1) {
          if !RatioWithin(flowNodes[k], flowNodes[kp], omega[k]) {
            assert !NodeLimitObserved(y, om, v, ignoreLast, k);
            return false;
          }
        }
        kp := k;
      }
      b := true;
    }

    /** The distance of the vertex in flowNodes from the exact flow. */
    method CalIdistance(root: RootFunction) returns (d: real)
      requires Valid() && IsRoot(root)
      requires Dot(Reals(flowNodes[..x.Length]), Reals(flowNodes[..x.Length])) > 0.0
      ensures d == Idistance(root, fluxExact[..x.Length], flowNodes[..x.Length])
    {
      ghost var v, e := Reals(flowNodes[..x.Length]), fluxExact[..x.Length];
      var s, na := 0.0, 0.0;
      DotNone(v[..0], e[..0]);
      DotNone(v[..0], v[..0]);
      hide Dot;
      for i := 0 to x.Length
        invariant s == Dot(v[..i], e[..i]) && na == Dot(v[..i], v[..i])
      {
        var va := flowNodes[i] as real;
        assert va == v[i] && fluxExact[i] == e[i];
        DotNext(v, e, i, s, va, fluxExact[i]);
        DotNext(v, v, i, na, va, va);
        s := s + va * fluxExact[i];
        na := na + va * va;
      }
      assert v[..x.Length] == v && e[..x.Length] == e;
      d := s / root(na, 2);
    }

    /** The product of the prices of the nodes before the last. */
    method ProdOmegaPath() returns (prod: real)
      requires Valid() && AllPriced(x[..], true)
      ensures prod == Prod(OmegaPath(PricedNodes(x[..], true)))
    {
      ghost var path := OmegaPath(PricedNodes(x[..], true));
      hide Prod;
      prod := 1.0;
      EmptyProd(path[..0]);
      for i := 0 to x.Length - 1
        invariant prod == Prod(path[..i])
      {
        assert path[i] == Omega(x[i]) && Priced(x[i]) by { assert PricedNodes(x[..], true)[i] == x[i]; }
        ProdTake(path, i);
        prod := prod * (x[i].qttProv as real / x[i].qttRequ as real);
      }
      assert path[..x.Length - 1] == path;
    }

    /** The working vectors hold the cube that is searched. */
    ghost predicate Holds(c: Cube)
      requires Valid()
      reads x, omega, fluxExact, floor
    {
      && c.Valid()
      && c.x == x[..]
      && c.omega == omega[..x.Length]
      && c.exact == fluxExact[..x.Length]
      && c.floor == floor[..x.Length]
    }

    /** Examines one vertex: is it kept, at which distance, or refused for a limit? */
    method TryVertex(root: RootFunction, ghost c: Cube, mat: nat, exhausted: nat, ignoreLast: bool, prodPath: real)
      returns (keep: bool, refuse: bool, d: real)
      requires Valid() && IsRoot(root) && Holds(c)
      requires c.ex == exhausted && c.ignoreLast == ignoreLast && c.prodPath == prodPath
      modifies flowNodes
      ensures keep == c.Accepts(mat) && refuse == c.Refuses(mat)
      ensures keep ==> d == c.Distance(root, mat)
    {
      hide LimitsObserved, StockAllows, PriceNotBelowOne, BitSetInMatrix, Idistance, IsRoot;
      keep, refuse, d := false, false, 0.0;
      if BitSetInMatrix(mat, exhausted) {
        return;
      }
      ObtainVertex(mat);
      var stocks := CheckStocks();
      if !stocks {
        return;
      }
      var limits := CheckLimits(ignoreLast);
      if !limits {
        refuse := true;
        return;
      }
      if ignoreLast {
        if !PriceNotBelowOne(flowNodes[x.Length - 1], flowNodes[x.Length - 2], prodPath) {
          return;
        }
      }
      VertexHasLength(c, mat);
      d := CalIdistance(root);
      keep := true;
    }

    /** Searches the cube for the admissible vertex nearest to the exact flow. */
    method SearchCube(root: RootFunction, ghost c: Cube, exhausted: nat, ignoreLast: bool, prodPath: real)
      returns (found: bool, matbest: nat, refused: bool)
      requires Valid() && IsRoot(root) && Holds(c)
      requires c.ex == exhausted && c.ignoreLast == ignoreLast && c.prodPath == prodPath
      modifies flowNodes
      ensures found == Choose(root, c).Chosen? && refused == c.RefusesBelow(MatMax(x.Length))
      ensures found ==> matbest == Choose(root, c).mat
    {
      hide Cube.Accepts, Cube.Refuses, Cube.Distance, Cube.Valid, IsRoot;
      found, matbest, refused := false, 0, false;
      var distbest := 0.0;
      var matmax := MatMax(x.Length);
      for mat := 0 to matmax
        invariant Holds(c)
        invariant found == c.BestBelow(root, mat).Chosen? && refused == c.RefusesBelow(mat)
        invariant found ==> c.BestBelow(root, mat) == Chosen(matbest, distbest)
      {
        var keep, refuse, d := TryVertex(root, c, mat, exhausted, ignoreLast, prodPath);
        RefusesOneMore(c, mat);
        if refuse {
          refused := true;
        }
        if keep && (!found || distbest < d) {
          found, distbest, matbest := true, d, mat;
        }
      }
    }

    /** Writes the vertex chosen in flowr. */
    method WriteFlow(mat: nat)
      requires Valid()
      modifies flowNodes, flowr
      ensures flowr[..] == Vertex(floor[..x.Length], mat)
    {
      hide Vertex;
      ObtainVertex(mat);
      for k := 0 to x.Length
        invariant forall j :: 0 <= j < k ==> flowr[j] == flowNodes[j]
        invariant flowNodes[..x.Length] == Vertex(floor[..x.Length], mat)
      {
        flowr[k] := flowNodes[k];
      }
      assert flowr[..] == flowNodes[..x.Length];
    }

    /** Rounds the exact flow: writes the vertex chosen in flowr. */
    method Rounding(root: RootFunction, exhausted: nat, ignoreLast: bool, ghost y: seq<Tfl>)
      returns (r: Result<Status>)
      requires Valid() && IsRoot(root) && y == x[..] && Ready(y, ignoreLast)
      requires fluxExact[..x.Length] == Exact(root, y, ignoreLast)
      requires exhausted == Exhausted(root, y, ignoreLast)
      requires omega[..x.Length] == Omegas(y, ignoreLast)
      modifies floor, flowNodes, flowr
      ensures r.Err? ==> CubeOf(root, y, ignoreLast) == Err(r.error) && flowr[..] == old(flowr[..])
      ensures r.Ok? ==> CubeOf(root, y, ignoreLast).Ok?
      ensures r.Ok? ==> var k := Kept(root, CubeOf(root, y, ignoreLast).value);
                        r.value == k.status && (r.value == Draft ==> flowr[..] == k.flow.flowr)
    {
      hide Exact, Exhausted, Omegas, IsRoot, Choose, Kept, CubeOf, FloorsUpTo, Vertex, Ready, Stocked, AllPriced;
      hide Cube.RefusesBelow, Cube.Valid, Cube.BestBelow, Cube.Failed, MatMax;
      var fl := CalFloor(exhausted, y, fluxExact[..x.Length]);
      if fl.Err? {
        CubeNotFloored(root, y, ignoreLast);
        return Err(fl.error);
      }
      CubeFloored(root, y, ignoreLast);
      ghost var c := CubeOf(root, y, ignoreLast).value;
      var prodPath := 0.0;
      if ignoreLast {
        ReadyPriced(y, ignoreLast);
        prodPath := ProdOmegaPath();
      }
      var found, matbest, refused := SearchCube(root, c, exhausted, ignoreLast, prodPath);
      KeptAsFound(root, c);
      if found {
        WriteFlow(matbest);
        return Ok(Draft);
      }
      r := Ok(if refused then Refused else Undefined);
    }

    /** The exact flow of an opened cycle, from its prices on. */
    method ComputeExact(root: RootFunction, ignoreLast: bool, prodOmega: real, ghost y: seq<Tfl>)
      returns (exhausted: nat)
      requires Valid() && IsRoot(root) && y == x[..] && Ready(y, ignoreLast)
      requires omega[..x.Length] == Omegas(y, ignoreLast) && prodOmega == ProdOmega(y, ignoreLast)
      modifies `nbOwn, occOwn, ownIndex, omegaCorrige, piom, fluxExact
      ensures fluxExact[..x.Length] == Exact(root, y, ignoreLast)
      ensures exhausted == Exhausted(root, y, ignoreLast)
    {
      hide Omegas, ProdOmega, IsRoot, OwnersOf, Grouped, OmegaCorrige, Piom, FluxExact, GroupedUpTo;
      ReadyPriced(y, ignoreLast);
      ProdOfOmegas(y, ignoreLast);
      CalOwns();
      CalGains(root, prodOmega);
      ghost var om := omegaCorrige[..x.Length];
      assert om == Corrected(root, y, ignoreLast);
      CalPiom(om);
      exhausted := FlowMaximum(y, piom[..x.Length]);
    }

    /** Undefines the flow of every node. */
    method Drop()
      requires Valid()
      modifies flowr
      ensures FlowRecord(x[..], flowr[..]) == Dropped(x[..])
    {
      for k := 0 to x.Length
        invariant forall j :: 0 <= j < k ==> flowr[j] == QTTFLOW_UNDEFINED
      {
        flowr[k] := QTTFLOW_UNDEFINED;
      }
    }

    /** Undefines an ignored stock; stops at an empty one. */
    method OpenStocks(ignoreQtt: bool) returns (empty: bool)
      requires Valid() && ignoreQtt == IgnoresQtt(x[..])
      modifies x
      ensures empty == SomeStockEmpty(old(x[..]))
      ensures x[..] == if empty then old(x[..]) else Opened(old(x[..]))
    {
      ghost var was := x[..];
      var n := x.Length;
      for i := 0 to n
        invariant x[..] == if i == n then Opened(was) else was
        invariant forall j :: 0 <= j < i && !(ignoreQtt && j == n - 1) ==> was[j].qtt != 0
      {
        if ignoreQtt && i == n - 1 {
          x[n - 1] := x[n - 1].(qtt := QTTFLOW_UNDEFINED);
          continue;
        }
        if x[i].qtt == 0 {
          return true;
        }
      }
      empty := false;
    }

    /** Records on the last node the price and the stock that were ignored. */
    method Settle(ignoreOmega: bool, ignoreQtt: bool)
      requires Valid() && ignoreQtt == IgnoresQtt(x[..]) && ignoreOmega == IgnoresOmega(x[..])
      requires forall i :: 0 <= i < flowr.Length ==> 0 <= flowr[i] <= INT64_MAX
      modifies x
      ensures x[..] == Settled(old(x[..]), flowr[..])
    {
      var n := x.Length;
      if ignoreOmega {
        x[n - 1] := x[n - 1].(qttRequ := flowr[n - 2], qttProv := flowr[n - 1]);
      }
      if ignoreQtt {
        x[n - 1] := x[n - 1].(qtt := flowr[n - 1]);
      }
    }

    /** The flow of a cycle whose stocks have been opened. */
    method Flow(root: RootFunction, ghost y: seq<Tfl>, ignoreOmega: bool) returns (r: Result<()>)
      requires Valid() && IsRoot(root) && y == x[..] && ignoreOmega == IgnoresOmega(y)
      requires Stocked(y)
      modifies x, flowr, `nbOwn, `kind, `status
      modifies occOwn, ownIndex, omega, omegaCorrige, piom, fluxExact, floor, flowNodes
      ensures r.Err? ==> FlowOpened(root, y) == Err(r.error) && x[..] == y && flowr[..] == old(flowr[..])
      ensures r.Ok? ==> FlowOpened(root, y) == Ok(Computed(status, FlowRecord(x[..], flowr[..])))
    {
      hide Omegas, ProdOmega, AllPriced, IsRoot, Stocked, Rounded, IgnoresOmega, Kernel.CalType;
      kind := CalType();
      var p := CalOmega(ignoreOmega);
      if p.Err? {
        return Err(p.error);
      }
      if kind == CycleLimit && p.value < 1.0 {
        Drop();
        status := Refused;
        return Ok(());
      }
      r := RoundFlow(root, y, ignoreOmega, p.value);
    }

    /** The exact flow, its rounding, and what the last node records. */
    method RoundFlow(root: RootFunction, ghost y: seq<Tfl>, ignoreOmega: bool, prodOmega: real) returns (r: Result<()>)
      requires Valid() && IsRoot(root) && y == x[..] && ignoreOmega == IgnoresOmega(y) && Ready(y, ignoreOmega)
      requires omega[..x.Length] == Omegas(y, ignoreOmega) && prodOmega == ProdOmega(y, ignoreOmega)
      modifies x, flowr, `nbOwn, `status
      modifies occOwn, ownIndex, omegaCorrige, piom, fluxExact, floor, flowNodes
      ensures r.Err? ==> Rounded(root, y, ignoreOmega) == Err(r.error) && x[..] == y && flowr[..] == old(flowr[..])
      ensures r.Ok? ==> Rounded(root, y, ignoreOmega) == Ok(Computed(status, FlowRecord(x[..], flowr[..])))
    {
      hide Omegas, ProdOmega, AllPriced, IsRoot, Stocked, Exact, Exhausted, Kept, CubeOf, Settled, IgnoresOmega;
      hide IgnoresQtt, Kernel.CalType;
      var exhausted := ComputeExact(root, ignoreOmega, prodOmega, y);
      var s := Rounding(root, exhausted, ignoreOmega, y);
      if s.Err? {
        return Err(s.error);
      }
      status := s.value;
      if status != Draft {
        Drop();
        return Ok(());
      }
      KeptFlow(root, CubeOf(root, y, ignoreOmega).value);
      var ignoreQtt := IgnoresQtt(x[..]);
      Settle(ignoreOmega, ignoreQtt);
      r := Ok(());
    }
  }

  lemma NoFloors(y: seq<Tfl>, exact: seq<real>, ex: nat)
    requires |exact| == |y|
    ensures FloorsUpTo(y, exact, ex, 0) == Ok([])
  {}

  /** The floor of one more node, or the error that it raises. */
  lemma NextFloor(y: seq<Tfl>, exact: seq<real>, ex: nat, i: nat, before: seq<int>, one: Result<int>)
    requires |exact| == |y| && i < |y| && FloorsUpTo(y, exact, ex, i) == Ok(before)
    requires one == FloorOf(y[i], exact[i], i == ex)
    ensures one.Ok? ==> FloorsUpTo(y, exact, ex, i + 1) == Ok(before + [one.value])
    ensures one.Err? ==> FloorsUpTo(y, exact, ex, |y|) == Err(one.error)
  {
    hide FloorOf;
    if one.Err? { FloorErrorStays(y, exact, ex, i + 1, |y|); }
  }

  lemma KeptFlow(root: RootFunction, c: Cube)
    requires IsRoot(root) && c.Valid()
    ensures var k := Kept(root, c);
            k.status == Draft ==>
              && |k.flow.flowr| == |c.x|
              && (forall i :: 0 <= i < |c.x| ==> 0 <= k.flow.flowr[i] <= INT64_MAX)
              && k.flow.x == Settled(c.x, k.flow.flowr)
  {
    hide Choose, Settled, IsRoot, ChosenFlow;
  }

  lemma ReadyPriced(y: seq<Tfl>, ignoreLast: bool)
    requires Ready(y, ignoreLast)
    ensures AllPriced(y, ignoreLast)
  {}

  lemma CubeNotFloored(root: RootFunction, y: seq<Tfl>, ignoreLast: bool)
    requires IsRoot(root) && Ready(y, ignoreLast)
    ensures var fl := FloorsUpTo(y, Exact(root, y, ignoreLast), Exhausted(root, y, ignoreLast), |y|);
            fl.Err? ==> CubeOf(root, y, ignoreLast) == Err(fl.error)
  {
    hide Exact, Exhausted, FloorsUpTo, Ready;
  }

  lemma CubeFloored(root: RootFunction, y: seq<Tfl>, ignoreLast: bool)
    requires IsRoot(root) && Ready(y, ignoreLast)
    ensures var fl := FloorsUpTo(y, Exact(root, y, ignoreLast), Exhausted(root, y, ignoreLast), |y|);
            fl.Ok? ==> CubeOf(root, y, ignoreLast).Ok?
                       && CubeOf(root, y, ignoreLast).value.floor == fl.value
                       && CubeOf(root, y, ignoreLast).value.prodPath == PathPrice(y, ignoreLast)
  {
    hide Exact, Exhausted, FloorsUpTo, Ready;
  }

  lemma KeptAsFound(root: RootFunction, c: Cube)
    requires IsRoot(root) && c.Valid()
    ensures var k := Kept(root, c);
            var b := Choose(root, c);
            if b.Chosen? then k.status == Draft && k.flow.flowr == Vertex(c.floor, b.mat)
            else k.status == if c.RefusesBelow(MatMax(|c.x|)) then Refused else Undefined
  {
    hide Choose, Vertex, Settled, Cube.Valid, Cube.RefusesBelow;
  }

  lemma RefusesOneMore(c: Cube, m: nat)
    requires c.Valid()
    ensures c.RefusesBelow(m + 1) <==> c.RefusesBelow(m) || c.Refuses(m)
  {
    hide Cube.Refuses;
    if k: nat :| k < m + 1 && c.Refuses(k) { assert k < m || k == m; }
  }

  /** One more term is added up. */
  lemma DotNext(a: seq<real>, b: seq<real>, i: nat, s: real, p: real, q: real)
    requires |a| == |b| && i < |a| && s == Dot(a[..i], b[..i]) && p == a[i] && q == b[i]
    ensures s + p * q == Dot(a[..i + 1], b[..i + 1])
  {
    hide Dot;
    DotSnoc(a, b, i);
  }

  lemma DotNone(a: seq<real>, b: seq<real>)
    requires a == [] && b == []
    ensures Dot(a, b) == 0.0
  {}

  lemma DotSnoc(a: seq<real>, b: seq<real>, i: nat)
    requires |a| == |b| && i < |a|
    ensures Dot(a[..i + 1], b[..i + 1]) == Dot(a[..i], b[..i]) + a[i] * b[i]
  {
    assert a[..i + 1][..i] == a[..i] && b[..i + 1][..i] == b[..i];
  }

  lemma EmptyProd(s: seq<real>)
    requires s == []
    ensures Prod(s) == 1.0
  {}

  lemma EmptyOccurrences(own: seq<int>)
    ensures Group(own, 0) == Grouping(0, []) && Occurrences(Group(own, 0)) == []
  {}

  /** The nodes after an error: an ignored stock has been undefined, unless the cycle
      was turned down at once. */
  function NodesLeft(was: seq<Tfl>, error: Failure): seq<Tfl> {
    if |was| == 0 || error == MaxDimReached || error == NegativeQuantity || error == OidFoundTwice then was
    else Opened(was)
  }

  /** Past the first checks there are two errors only. */
  lemma LateErrors(root: RootFunction, y: seq<Tfl>)
    requires IsRoot(root) && |y| >= 2 && Stocked(y)
    ensures FlowOpened(root, y).Err? ==>
              FlowOpened(root, y).error == ZeroPrice || FlowOpened(root, y).error == CannotBeRounded
  {
    hide CubeOf, Kept, ProdOmega, Kernel.CalType, IsRoot, Stocked, AllPriced, IgnoresOmega;
    if AllPriced(y, IgnoresOmega(y)) {
      StockedIsReady(y, IgnoresOmega(y));
      Guarantees.OnlyRangeErrors(root, y, IgnoresOmega(y));
    }
  }

  lemma StockedIsReady(y: seq<Tfl>, ignoreLast: bool)
    requires |y| >= 2 && Stocked(y) && AllPriced(y, ignoreLast)
    ensures Ready(y, ignoreLast)
  {}

  /** Computes the flow of a cycle in place: the flow of every node and, for a
      quote, what was ignored of its last node. */
  method FlowcMaximum(root: RootFunction, x: array<Tfl>, flowr: array<int>) returns (r: Result<Status>)
    requires IsRoot(root) && flowr.Length == x.Length
    modifies x, flowr
    ensures var m := Kernel.FlowcMaximum(root, FlowRecord(old(x[..]), old(flowr[..])));
            if r.Err? then m == Err(r.error)
            else m == Ok(Computed(r.value, FlowRecord(x[..], flowr[..])))
    ensures r.Err? ==> flowr[..] == old(flowr[..]) && x[..] == NodesLeft(old(x[..]), r.error)
  {
    ghost var was := x[..];
    var n := x.Length;
    if n == 0 {
      return Ok(Empty);
    }
    if n > FLOW_MAX_DIM {
      return Err(MaxDimReached);
    }
    var signs := CheckSigns(x);
    if !signs {
      return Err(NegativeQuantity);
    }
    var distinct := CheckOids(x);
    if !distinct {
      return Err(OidFoundTwice);
    }
    if n == 1 {
      return Ok(NoLoop);
    }
    var c := new TresChemin(x, flowr);
    var empty := c.OpenStocks(IgnoresQtt(x[..]));
    if empty {
      c.Drop();
      return Ok(c.status);
    }
    OpenedStocked(was);
    LateErrors(root, Opened(was));
    hide SomeStockEmpty, Opened, IgnoresQtt, IgnoresOmega, FlowOpened, Dropped, Stocked, DistinctOids, NonNegative;
    hide IsRoot;
    var f := c.Flow(root, Opened(was), IgnoresOmega(x[..]));
    if f.Err? {
      return Err(f.error);
    }
    r := Ok(c.status);
  }

  method CheckSigns(x: array<Tfl>) returns (b: bool)
    ensures b == NonNegative(x[..])
  {
    for i := 0 to x.Length
      invariant forall j :: 0 <= j < i ==> x[..][j].qtt >= 0 && x[..][j].proba >= 0.0
    {
      if x[i].qtt < 0 || x[i].proba < 0.0 {
        assert x[..][i] == x[i];
        return false;
      }
    }
    b := true;
  }

  method CheckOids(x: array<Tfl>) returns (b: bool)
    ensures b == DistinctOids(x[..])
  {
    for i := 0 to x.Length
      invariant forall j, k :: 0 <= k < j < i ==> x[k].oid != x[j].oid
    {
      for m := 0 to i
        invariant forall k :: 0 <= k < m ==> x[k].oid != x[i].oid
      {
        if x[i].oid == x[m].oid {
          assert x[..][m].oid == x[..][i].oid;
          return false;
        }
      }
    }
    b := true;
  }
}
