/** Reading a flow: its text is parsed, and its flow is computed again. */
module FlowInput {
  import opened Numeric
  import opened FlowTypes
  import opened Gains
  import opened ExactFlow
  import opened Rounding
  import opened Kernel
  import opened Congruence
  import opened FlowText
  import opened FlowGrammar

  /** The parser does not set the flow of the nodes: `stray` is what it leaves. */
  function Unset(x: seq<Tfl>, stray: int): (f: Tflow)
    ensures f.x == x
  {
    FlowRecord(x, seq(|x|, i => stray))
  }

  function YflowIn(root: RootFunction, text: string, stray: int): Result<Tflow>
    requires IsRoot(root)
  {
    var x :- ParseBox(Scan(text));
    var c :- FlowcMaximum(root, Unset(x, stray));
    Ok(c.flow)
  }

  // ---------------------------------------------------------------------------
  // Computing a flow again

  /** Without a draft the nodes are left as they were opened. */
  lemma NotDraftDropped(root: RootFunction, y: seq<Tfl>, g: Computed)
    requires IsRoot(root) && |y| >= 2 && Stocked(y) && FlowOpened(root, y) == Ok(g) && g.status != Draft
    ensures g.flow == Dropped(y)
  {
    hide CubeOf, Choose, Ready, CalType, ProdOmega, IsRoot, AllPriced, Stocked;
  }

  lemma DraftKept(root: RootFunction, y: seq<Tfl>, g: Computed) returns (c: Cube)
    requires IsRoot(root) && |y| >= 2 && Stocked(y) && FlowOpened(root, y) == Ok(g) && g.status == Draft
    ensures Ready(y, IgnoresOmega(y)) && CubeOf(root, y, IgnoresOmega(y)) == Ok(c)
    ensures Choose(root, c).Chosen?
    ensures g == Computed(Draft, FlowRecord(Settled(y, ChosenFlow(root, c)), ChosenFlow(root, c)))
  {
    hide CubeOf, Choose, CalType, ProdOmega, IsRoot, Settled, IgnoresOmega, AllPriced, Stocked;
    c := CubeOf(root, y, IgnoresOmega(y)).value;
  }

  /** The last node records a stock and prices that are not read. */
  lemma SettledReopens(x: seq<Tfl>, v: seq<int>)
    requires |x| == |v| >= 2 && forall i :: 0 <= i < |v| ==> 0 <= v[i] <= INT64_MAX
    ensures var y := Opened(x);
            var z := Settled(y, v);
            && (forall i :: 0 <= i < |x| ==> z[i].oid == x[i].oid && z[i].kind == x[i].kind)
            && (SomeStockEmpty(z) <==> SomeStockEmpty(x))
            && Alike(y, Opened(z), IgnoresOmega(y))
            && Settled(Opened(z), v) == z
  {
    var y := Opened(x);
    var z := Settled(y, v);
    var w := Opened(z);
    var n := |x|;
    assert forall i :: 0 <= i < n - 1 ==> z[i] == x[i] && w[i] == y[i];
    assert z[n - 1].kind == x[n - 1].kind;
    assert SomeStockEmpty(x) ==> SomeStockEmpty(z) by {
      if i :| 0 <= i < n && !(IgnoresQtt(x) && i == n - 1) && x[i].qtt == 0 { assert z[i].qtt == 0; }
    }
    if !IgnoresOmega(x) { assert w[n - 1] == y[n - 1]; assert w == y; }
    assert Settled(w, v)[n - 1] == z[n - 1];
    assert Settled(w, v) == z;
  }

  /** A cycle is computed as its opened nodes say. */
  lemma ComputesOpened(root: RootFunction, f: Tflow)
    requires IsRoot(root) && 2 <= |f.x| <= FLOW_MAX_DIM && NonNegative(f.x) && DistinctOids(f.x)
    requires !SomeStockEmpty(f.x)
    ensures Stocked(Opened(f.x)) && FlowcMaximum(root, f) == FlowOpened(root, Opened(f.x))
  {
    hide FlowOpened, Opened, DistinctOids, SomeStockEmpty, NonNegative;
    OpenedStocked(f.x);
  }

  /** The draft of nodes whose ignored prices are changed is the same flow. */
  lemma OpenedAgain(root: RootFunction, y: seq<Tfl>, w: seq<Tfl>, g: Computed)
    requires IsRoot(root) && |y| >= 2 && Stocked(y) && Alike(y, w, IgnoresOmega(y))
    requires FlowOpened(root, y) == Ok(g) && g.status == Draft
    requires |g.flow.flowr| == |w| && (forall i :: 0 <= i < |w| ==> 0 <= g.flow.flowr[i] <= INT64_MAX)
    requires Settled(w, g.flow.flowr) == g.flow.x
    ensures Stocked(w) && FlowOpened(root, w) == Ok(g)
  {
    hide FlowOpened, Stocked, Alike, IgnoresOmega, Settled;
    SameOpened(root, y, w);
  }

  lemma UnpackComputed(root: RootFunction, f: Tflow, g: Computed)
    requires IsRoot(root) && |f.x| >= 2 && FlowcMaximum(root, f) == Ok(g)
    ensures |f.x| <= FLOW_MAX_DIM && NonNegative(f.x) && DistinctOids(f.x)
    ensures SomeStockEmpty(f.x) ==> g == Computed(Undefined, Dropped(f.x))
  {
    hide FlowOpened, SomeStockEmpty, Opened;
  }

  lemma SameOids(x: seq<Tfl>, y: seq<Tfl>)
    requires |x| == |y| && DistinctOids(x) && forall i :: 0 <= i < |x| ==> x[i].oid == y[i].oid
    ensures DistinctOids(y)
  {}

  lemma OpenedNegative(x: seq<Tfl>)
    requires |x| >= 1 && NonNegative(Opened(x))
    ensures Opened(x) == x
  {
    assert Opened(x)[|x| - 1].qtt >= 0;
  }

  /** A flow whose quantities are all set is computed again to itself. */
  lemma ComputedAgain(root: RootFunction, f: Tflow, g: Computed, h: Tflow)
    requires IsRoot(root) && |f.x| >= 2 && FlowcMaximum(root, f) == Ok(g)
    requires NonNegative(g.flow.x) && h.x == g.flow.x
    ensures FlowcMaximum(root, h) == Ok(g)
  {
    hide *;
    UnpackComputed(root, f, g);
    if SomeStockEmpty(f.x) {
      SameNodesSameFlow(root, f, h, g);
    } else {
      ComputesOpened(root, f);
      if g.status == Draft { DraftAgain(root, f, g, h); } else { DroppedAgain(root, f, g, h); }
    }
  }

  lemma SameNodesSameFlow(root: RootFunction, f: Tflow, h: Tflow, g: Computed)
    requires IsRoot(root) && |f.x| >= 2 && FlowcMaximum(root, f) == Ok(g)
    requires h.x == f.x || (h.x == g.flow.x && g.flow == Dropped(f.x))
    ensures FlowcMaximum(root, h) == Ok(g)
  {
    hide FlowMaximum;
  }

  lemma DroppedAgain(root: RootFunction, f: Tflow, g: Computed, h: Tflow)
    requires IsRoot(root) && |f.x| >= 2 && FlowcMaximum(root, f) == Ok(g) && g.status != Draft
    requires Stocked(Opened(f.x)) && FlowOpened(root, Opened(f.x)) == Ok(g)
    requires NonNegative(g.flow.x) && h.x == g.flow.x
    ensures FlowcMaximum(root, h) == Ok(g)
  {
    hide FlowcMaximum, FlowOpened, NonNegative, Opened, IsRoot, Stocked;
    NotDraftDropped(root, Opened(f.x), g);
    OpenedNegative(f.x);
    SameNodesSameFlow(root, f, h, g);
  }

  lemma DraftAgain(root: RootFunction, f: Tflow, g: Computed, h: Tflow)
    requires IsRoot(root) && 2 <= |f.x| <= FLOW_MAX_DIM && DistinctOids(f.x) && NonNegative(f.x)
    requires !SomeStockEmpty(f.x) && g.status == Draft
    requires Stocked(Opened(f.x)) && FlowOpened(root, Opened(f.x)) == Ok(g)
    requires NonNegative(g.flow.x) && h.x == g.flow.x
    ensures FlowcMaximum(root, h) == Ok(g)
  {
    hide *;
    var y := Opened(f.x);
    var c := DraftKept(root, y, g);
    var v := ChosenFlow(root, c);
    SettledReopens(f.x, v);
    SameOids(f.x, h.x);
    ComputesOpened(root, h);
    OpenedAgain(root, y, Opened(h.x), g);
  }

  // ---------------------------------------------------------------------------
  // The text of a computed flow

  /** The fields that reading checks, other than quantities. */
  predicate ValidOrders(x: seq<Tfl>) {
    forall i :: 0 <= i < |x| ==> 1 <= x[i].kind <= 256 && x[i].id >= 0 && x[i].oid >= 0 && x[i].own >= 0
  }

  /** The stock of the last node was opened, and no draft has set it. */
  predicate StockLeftOpen(x: seq<Tfl>, status: Status)
    requires |x| >= 1
  {
    IgnoresQtt(x) && !SomeStockEmpty(x) && status != Draft
  }

  lemma SettledReadable(x: seq<Tfl>, v: seq<int>)
    requires |x| == |v| >= 2 && forall i :: 0 <= i < |v| ==> 0 <= v[i] <= INT64_MAX
    requires |x| <= FLOW_MAX_DIM && NonNegative(x) && ValidOrders(x)
    ensures Readable(Settled(Opened(x), v))
  {
    var z, n := Settled(Opened(x), v), |x|;
    assert forall i :: 0 <= i < n - 1 ==> z[i] == x[i];
    assert 1 <= x[n - 1].kind <= 256;
  }

  lemma OpenedReadable(x: seq<Tfl>)
    requires 2 <= |x| <= FLOW_MAX_DIM && NonNegative(x) && ValidOrders(x)
    ensures Readable(Opened(x)) <==> !IgnoresQtt(x)
  {
    if Readable(Opened(x)) { assert NodeReadable(Opened(x)[|x| - 1]); }
  }

  lemma PlainReadable(x: seq<Tfl>)
    requires |x| <= FLOW_MAX_DIM && NonNegative(x) && ValidOrders(x)
    ensures Readable(x)
  {}

  lemma ReadableIff(root: RootFunction, f: Tflow, g: Computed)
    requires IsRoot(root) && |f.x| >= 2 && FlowcMaximum(root, f) == Ok(g) && ValidOrders(f.x)
    ensures Readable(g.flow.x) <==> !StockLeftOpen(f.x, g.status)
  {
    hide *;
    UnpackComputed(root, f, g);
    StockOpen(f.x, g.status);
    if SomeStockEmpty(f.x) {
      PlainReadable(f.x);
      DroppedNodes(f.x);
    } else {
      ComputesOpened(root, f);
      if g.status == Draft {
        var c := DraftKept(root, Opened(f.x), g);
        SettledReadable(f.x, ChosenFlow(root, c));
      } else {
        NotDraftDropped(root, Opened(f.x), g);
        DroppedNodes(Opened(f.x));
        OpenedReadable(f.x);
      }
    }
  }

  lemma StockOpen(x: seq<Tfl>, status: Status)
    requires |x| >= 1
    ensures StockLeftOpen(x, status) <==> IgnoresQtt(x) && !SomeStockEmpty(x) && status != Draft
  {}

  lemma DroppedNodes(x: seq<Tfl>)
    ensures Dropped(x).x == x
  {}

  /** A flow of less than two nodes is not computed. */
  lemma ShortIsKept(root: RootFunction, f: Tflow, g: Computed)
    requires IsRoot(root) && |f.x| < 2 && FlowcMaximum(root, f) == Ok(g) && ValidOrders(f.x)
    ensures g.flow == f && Readable(f.x)
    ensures forall h: Tflow :: h.x == f.x ==> FlowcMaximum(root, h) == Ok(Computed(g.status, h))
  {
    hide FlowMaximum;
  }

  /** What reading the text of a computed flow gives, when it succeeds: a flow of one
      node keeps what the parser left unset. */
  function ReadBack(f: Tflow, g: Computed, stray: int): Tflow {
    if |f.x| == 1 then Unset(f.x, stray) else g.flow
  }

  lemma ReadBackIs(f: Tflow, g: Computed, stray: int)
    requires |f.x| < 2 ==> g.flow == f
    ensures ReadBack(f, g, stray) == if |f.x| < 2 then Unset(f.x, stray) else g.flow
  {
    assert f.x == [] ==> f.flowr == [];
  }

  /** The text of a computed flow, read back, gives this very flow, its
      quantities of exchange included, whatever the parser leaves unset (but for the
      quantity of a single node); unless its last stock was opened for a quote that
      found no draft, and then reading raises. */
  lemma TextRestoresFlowIff(root: RootFunction, f: Tflow, g: Computed, stray: int)
    requires IsRoot(root) && FlowcMaximum(root, f) == Ok(g) && ValidOrders(f.x)
    requires AllFitStruct(g.flow.x) && forall i :: 0 <= i < |g.flow.x| ==> SixDecimals(g.flow.x[i].proba)
    ensures YflowIn(root, Print(g.flow.x), stray) ==
            if |f.x| >= 2 && StockLeftOpen(f.x, g.status) then Err(BadText) else Ok(ReadBack(f, g, stray))
  {
    hide *;
    InputOf(root, Print(g.flow.x), stray);
    UnsetNodes(g.flow.x, stray);
    if |f.x| < 2 {
      ShortIsKept(root, f, g);
      SixDecimalsReadBack(g.flow.x);
      ReadBackIs(f, g, stray);
    } else {
      ReadableIff(root, f, g);
      ReadBackIs(f, g, stray);
      if Readable(g.flow.x) {
        SixDecimalsReadBack(g.flow.x);
        ReadableNonNegative(g.flow.x);
        ComputedAgain(root, f, g, Unset(g.flow.x, stray));
      } else {
        PrintedReadsBack(g.flow.x);
      }
    }
  }

  lemma UnsetNodes(x: seq<Tfl>, stray: int)
    ensures Unset(x, stray).x == x
  {}

  lemma ReadableNonNegative(x: seq<Tfl>)
    requires Readable(x)
    ensures NonNegative(x)
  {
    assert forall i :: 0 <= i < |x| ==> NodeReadable(x[i]);
  }

  lemma InputOf(root: RootFunction, text: string, stray: int)
    requires IsRoot(root)
    ensures YflowIn(root, text, stray) ==
            match ParseBox(Scan(text))
            case Err(e) => Err(e)
            case Ok(x) =>
              match FlowcMaximum(root, Unset(x, stray))
              case Err(e) => Err(e)
              case Ok(c) => Ok(c.flow)
  {
    hide Scan, ParseBox, FlowcMaximum;
  }
}
