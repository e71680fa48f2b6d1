/** The flow kernel: the largest flow of a cycle, rounded to integers. */
module Kernel {
  import opened Numeric
  import opened FlowTypes
  import opened Owners
  import opened Gains
  import opened ExactFlow
  import opened Rounding

  datatype Computed = Computed(status: Status, flow: Tflow)

  /** A flow is CYCLE_LIMIT as soon as one order is LIMIT. */
  function CalType(x: seq<Tfl>): CycleKind {
    if exists i :: 0 <= i < |x| && x[i].IsLimit() then CycleLimit else CycleBest
  }

  function OwnersOf(x: seq<Tfl>): (own: seq<int>)
    ensures |own| == |x| && forall i :: 0 <= i < |x| ==> own[i] == x[i].own
  {
    seq(|x|, i requires 0 <= i < |x| => x[i].own)
  }

  function Grouped(x: seq<Tfl>): (g: Grouping)
    requires |x| >= 1
    ensures ValidGrouping(g) && |g.index| == |x|
  {
    CalOwnsValid(OwnersOf(x));
    CalOwns(OwnersOf(x))
  }

  /** The stocks and prices let the exact flow be computed. */
  predicate Ready(x: seq<Tfl>, ignoreLast: bool) {
    |x| >= 2 && Stocked(x) && AllPriced(x, ignoreLast)
  }

  /** The corrected prices of the cycle. */
  function Corrected(root: RootFunction, x: seq<Tfl>, ignoreLast: bool): (om: seq<real>)
    requires IsRoot(root) && Ready(x, ignoreLast)
    ensures |om| == |x| && Positive(om) && Prod(om) == 1.0
  {
    var omega := Omegas(x, ignoreLast);
    var p := ProdOmega(x, ignoreLast);
    ProdOfOmegas(x, ignoreLast);
    CorrectedProductIsOne(root, omega, Grouped(x), p);
    OmegaCorrige(root, omega, Grouped(x), p)
  }

  function Exact(root: RootFunction, x: seq<Tfl>, ignoreLast: bool): (f: seq<real>)
    requires IsRoot(root) && Ready(x, ignoreLast)
    ensures |f| == |x|
  {
    FluxExact(x, Piom(Corrected(root, x, ignoreLast)))
  }

  function Exhausted(root: RootFunction, x: seq<Tfl>, ignoreLast: bool): (i: nat)
    requires IsRoot(root) && Ready(x, ignoreLast)
    ensures i < |x| && IsDefined(x[i])
  {
    ExhaustedNode(x, Piom(Corrected(root, x, ignoreLast)))
  }

  function PathPrice(x: seq<Tfl>, ignoreLast: bool): real
    requires Ready(x, ignoreLast)
  {
    if ignoreLast then Prod(OmegaPath(PricedNodes(x, true))) else 0.0
  }

  /** What the search of the vertices starts from. */
  function CubeOf(root: RootFunction, x: seq<Tfl>, ignoreLast: bool): (r: Result<Cube>)
    requires IsRoot(root) && Ready(x, ignoreLast)
    ensures r.Ok? ==> r.value.Valid() && r.value.x == x && r.value.ignoreLast == ignoreLast
    ensures r.Ok? ==> r.value.exact == Exact(root, x, ignoreLast)
    ensures r.Ok? ==> r.value.ex == Exhausted(root, x, ignoreLast)
    ensures r.Ok? ==> r.value.omega == Omegas(x, ignoreLast)
    ensures r.Ok? ==> FloorsUpTo(x, r.value.exact, r.value.ex, |x|) == Ok(r.value.floor)
  {
    var exact := Exact(root, x, ignoreLast);
    var ex := Exhausted(root, x, ignoreLast);
    var floor :- FloorsUpTo(x, exact, ex, |x|);
    FloorsValid(x, exact, ex, floor);
    Ok(Cube(x, Omegas(x, ignoreLast), exact, floor, ex, ignoreLast, PathPrice(x, ignoreLast)))
  }

  lemma FloorsValid(x: seq<Tfl>, exact: seq<real>, ex: nat, floor: seq<int>)
    requires Stocked(x) && |exact| == |x| && ex < |x| && IsDefined(x[ex])
    requires FloorsUpTo(x, exact, ex, |x|) == Ok(floor)
    ensures |floor| == |x| && floor[ex] == x[ex].qtt > 0
    ensures forall i :: 0 <= i < |x| ==> 0 <= floor[i] <= INT64_MAX && (i != ex ==> floor[i] < INT64_MAX)
    ensures forall i :: 0 <= i < |x| && i != ex ==> floor[i] as real <= exact[i] < (floor[i] + 1) as real
  {
    hide FloorsUpTo, FloorOf;
    forall i | 0 <= i < |x|
      ensures 0 <= floor[i]
      ensures i != ex ==> floor[i] < INT64_MAX
      ensures i != ex ==> floor[i] as real <= exact[i] < (floor[i] + 1) as real
      ensures i == ex ==> floor[i] == x[i].qtt
    {
      FloorOfBounds(x[i], exact[i], i == ex, floor[i]);
    }
  }

  /** The chosen vertex, if any, after all masks. */
  function Choose(root: RootFunction, c: Cube): (b: Choice)
    requires IsRoot(root) && c.Valid()
    ensures b.Chosen? ==> b.mat < MatMax(|c.x|) && c.Accepts(b.mat)
  {
    c.BestBelow(root, MatMax(|c.x|))
  }

  function Dropped(x: seq<Tfl>): Tflow {
    FlowRecord(x, seq(|x|, i => QTTFLOW_UNDEFINED))
  }

  /** The stock of the last node is not read. */
  predicate IgnoresQtt(x: seq<Tfl>)
    requires |x| >= 1
  {
    IsNoQttLimit(x[|x| - 1].kind) || IsIgnoreOmega(x[|x| - 1].kind)
  }

  predicate IgnoresOmega(x: seq<Tfl>)
    requires |x| >= 1
  {
    IsIgnoreOmega(x[|x| - 1].kind)
  }

  /** The nodes before the flow is searched: an ignored stock is undefined. */
  function Opened(x: seq<Tfl>): (y: seq<Tfl>)
    requires |x| >= 1
    ensures |y| == |x|
    ensures forall i :: 0 <= i < |x| - 1 ==> y[i] == x[i]
    ensures !IgnoresQtt(x) ==> y == x
  {
    if IgnoresQtt(x) then x[|x| - 1 := x[|x| - 1].(qtt := QTTFLOW_UNDEFINED)] else x
  }

  /** Some stock that limits the flow is empty. */
  predicate SomeStockEmpty(x: seq<Tfl>)
    requires |x| >= 1
  {
    exists i :: 0 <= i < |x| && !(IgnoresQtt(x) && i == |x| - 1) && x[i].qtt == 0
  }

  /** The last node records the price and the stock that were not given. */
  function Settled(x: seq<Tfl>, v: seq<int>): (y: seq<Tfl>)
    requires |x| == |v| >= 2 && forall i :: 0 <= i < |v| ==> 0 <= v[i] <= INT64_MAX
    ensures |y| == |x|
    ensures forall i :: 0 <= i < |x| - 1 ==> y[i] == x[i]
    ensures !IgnoresQtt(x) ==> y == x
  {
    var n := |x|;
    var last := x[n - 1];
    var priced := if IgnoresOmega(x) then last.(qttRequ := v[n - 2], qttProv := v[n - 1]) else last;
    if IgnoresQtt(x) then x[n - 1 := priced.(qtt := v[n - 1])] else x
  }

  predicate NonNegative(x: seq<Tfl>) {
    forall i :: 0 <= i < |x| ==> x[i].qtt >= 0 && x[i].proba >= 0.0
  }

  function FlowMaximum(root: RootFunction, x: seq<Tfl>): Result<Computed>
    requires IsRoot(root) && |x| >= 2 && NonNegative(x)
  {
    if SomeStockEmpty(x) then Ok(Computed(Undefined, Dropped(x)))
    else
      OpenedStocked(x);
      FlowOpened(root, Opened(x))
  }

  /** The flow of a cycle whose stocks have been opened. */
  function FlowOpened(root: RootFunction, y: seq<Tfl>): Result<Computed>
    requires IsRoot(root) && |y| >= 2 && Stocked(y)
  {
    var ignoreLast := IgnoresOmega(y);
    if !AllPriced(y, ignoreLast) then Err(ZeroPrice)
    else if CalType(y) == CycleLimit && ProdOmega(y, ignoreLast) < 1.0
    then Ok(Computed(Refused, Dropped(y)))
    else Rounded(root, y, ignoreLast)
  }

  /** The exact flow of an opened cycle, rounded. */
  function Rounded(root: RootFunction, y: seq<Tfl>, ignoreLast: bool): Result<Computed>
    requires IsRoot(root) && Ready(y, ignoreLast)
  {
    var c :- CubeOf(root, y, ignoreLast);
    Ok(Kept(root, c))
  }

  /** The vertex chosen, if any, becomes the flow. */
  function Kept(root: RootFunction, c: Cube): (r: Computed)
    requires IsRoot(root) && c.Valid()
    ensures r.status == Draft <==> Choose(root, c).Chosen?
    ensures r.status != Draft ==> r.flow == Dropped(c.x)
    ensures !IgnoresQtt(c.x) ==> r.flow.x == c.x
  {
    if Choose(root, c).Unchosen? then Computed(c.Failed(), Dropped(c.x))
    else
      var v := ChosenFlow(root, c);
      Computed(Draft, FlowRecord(Settled(c.x, v), v))
  }

  function ChosenFlow(root: RootFunction, c: Cube): (v: seq<int>)
    requires IsRoot(root) && c.Valid() && Choose(root, c).Chosen?
    ensures |v| == |c.x| && forall i :: 0 <= i < |v| ==> 0 <= v[i] <= INT64_MAX
  {
    VertexRange(c, Choose(root, c).mat);
    Vertex(c.floor, Choose(root, c).mat)
  }

  lemma OpenedStocked(x: seq<Tfl>)
    requires |x| >= 2 && NonNegative(x) && !SomeStockEmpty(x)
    ensures Stocked(Opened(x)) && IgnoresOmega(Opened(x)) == IgnoresOmega(x) && CalType(Opened(x)) == CalType(x)
  {
    var y := Opened(x);
    assert forall i :: 0 <= i < |x| ==> y[i].kind == x[i].kind;
    assert y[0] == x[0];
  }

  /** The flow of a cycle, with the status found. */
  function FlowcMaximum(root: RootFunction, f: Tflow): Result<Computed>
    requires IsRoot(root)
  {
    if |f.x| == 0 then Ok(Computed(Empty, f))
    else if |f.x| > FLOW_MAX_DIM then Err(MaxDimReached)
    else if !NonNegative(f.x) then Err(NegativeQuantity)
    else if !DistinctOids(f.x) then Err(OidFoundTwice)
    else if |f.x| == 1 then Ok(Computed(NoLoop, f))
    else FlowMaximum(root, f.x)
  }
}
