/** What the loop of a quote can raise, whatever its flags. */
module QuoteErrors {
  import opened Numeric
  import opened FlowTypes
  import opened Orders
  import opened Kernel
  import opened Guarantees
  import opened Yflow
  import opened Search
  import opened Matching
  import opened MarketRuns
  import opened Quotes
  import opened Exhaustion
  import opened QuotePrices
  import opened Verdicts
  import Coherence
  import ExactFlow
  import Gains

  /** The types of the quotes: a price is ignored only when the stock is not limited. */
  predicate QuoteType(kind: nat) {
    IsIgnoreOmega(kind) ==> IsNoQttLimit(kind)
  }

  /** No node gives more than the stock that limits it. */
  ghost predicate Affords(c: Tflow) {
    forall i :: 0 <= i < |c.x| && IsLimited(c.x, i) ==> c.flowr[i] <= c.x[i].qtt
  }

  predicate FullNode(b: Tfl) {
    b.proba == 1.0 && b.qttRequ > 0 && b.qttProv > 0
  }

  predicate AllFull(x: seq<Tfl>) {
    forall i :: 0 <= i < |x| ==> FullNode(x[i])
  }

  /** A row of the table of a quote of the order. */
  ghost predicate RowFor(o: Order, kind: nat, c: Tflow) {
    && |c.x| >= 2 && LastOf(c).id == o.id && LastOf(c).oid == o.oid && LastOf(c).kind == kind
    && Affords(c) && AllFull(c.x)
  }

  ghost predicate TableFor(o: Order, kind: nat, tmp: seq<Tflow>) {
    AllAgree(tmp) && forall k :: 0 <= k < |tmp| ==> RowFor(o, kind, tmp[k])
  }

  // ---------------------------------------------------------------------------
  // What the kernel finds

  lemma FoundAffords(root: RootFunction, f: Tflow, g: Tflow)
    requires IsRoot(root) && FlowcMaximum(root, f) == Ok(Computed(Draft, g))
    ensures Affords(g)
  {
    hide FlowcMaximum, CubeOf, Choose, Gains.AllPriced, Gains.ProdOmega, DistinctOids, SomeStockEmpty, IsRoot;
    FoundHasNodes(root, f, g);
    DraftWithinStocks(root, f, g);
    FoundSameSize(f.x, g);
    var y := Opened(f.x);
    forall i | 0 <= i < |g.x| && IsLimited(g.x, i)
      ensures g.flowr[i] <= g.x[i].qtt
    {
      SettledLimited(f.x, g, i);
      assert y[i] == f.x[i] && ExactFlow.IsDefined(y[i]);
    }
  }

  lemma FoundFull(x: seq<Tfl>, g: Tflow)
    requires FoundNodes(x, g) && IsDraft(g) && AllFull(x)
    ensures AllFull(g.x)
  {
    hide Gains.AllPriced, NonNegative, DistinctOids;
  }

  lemma FoundLast(x: seq<Tfl>, g: Tflow)
    requires FoundNodes(x, g)
    ensures |g.x| == |x| >= 2
    ensures LastOf(g).id == x[|x| - 1].id && LastOf(g).oid == x[|x| - 1].oid && LastOf(g).kind == x[|x| - 1].kind
  {
    hide Gains.AllPriced, NonNegative, DistinctOids;
  }

  /** A draft found for full nodes that end in the order is a row of its table. */
  lemma FoundIsRow(root: RootFunction, o: Order, f: Tflow, g: Tflow)
    requires IsRoot(root) && FlowcMaximum(root, f) == Ok(Computed(Draft, g)) && IsDraft(g)
    requires |f.x| >= 1 && AllFull(f.x) && f.x[|f.x| - 1].id == o.id && f.x[|f.x| - 1].oid == o.oid
    ensures RowFor(o, f.x[|f.x| - 1].kind, g)
  {
    hide *;
    FoundHasNodes(root, f, g);
    FoundAffords(root, f, g);
    FoundFull(f.x, g);
    FoundLast(f.x, g);
    RowIs(o, f.x[|f.x| - 1].kind, g);
  }

  lemma RowIs(o: Order, kind: nat, c: Tflow)
    ensures RowFor(o, kind, c) <==>
            && |c.x| >= 2 && LastOf(c).id == o.id && LastOf(c).oid == o.oid && LastOf(c).kind == kind
            && Affords(c) && AllFull(c.x)
  {
    hide LastOf, Affords, AllFull;
  }

  // ---------------------------------------------------------------------------
  // The reduction of a row

  /** The node that shares its stock with the node of another row is limited too. */
  lemma SharesLimited(o: Order, kind: nat, c: Tflow, best: Tflow, j: nat, i: nat)
    requires RowFor(o, kind, c) && RowFor(o, kind, best) && DistinctOids(c.x) && DistinctOids(best.x)
    requires j < |c.x| && i < |best.x| && c.x[j].oid == best.x[i].oid && IsLimited(c.x, j)
    ensures IsLimited(best.x, i)
  {
    hide Affords, AllFull;
    if i == |best.x| - 1 {
      assert c.x[|c.x| - 1].oid == o.oid == c.x[j].oid;
      LastOnly(c.x, j);
    }
  }

  lemma LastOnly(x: seq<Tfl>, j: nat)
    requires DistinctOids(x) && j < |x| && x[j].oid == x[|x| - 1].oid
    ensures j == |x| - 1
  {}

  lemma LimitedOrUnlimited(x: seq<Tfl>, j: nat)
    requires j < |x| && QuoteType(x[|x| - 1].kind)
    ensures IsLimited(x, j) || IsNoQttLimit(x[j].kind)
  {}

  /** A node has what the executed cycle takes from its stock. */
  lemma NodeGives(o: Order, kind: nat, c: Tflow, best: Tflow, j: nat)
    requires RowFor(o, kind, c) && RowFor(o, kind, best) && Agree(c, best) && QuoteType(kind)
    requires Executable(c) && Executable(best) && j < |c.x|
    ensures IsDraft(best) && CanGive(c.x[j], Amount(best, c.x[j].oid))
  {
    LimitedOrUnlimited(c.x, j);
    hide SpendsOne, Rankable, Probable, InnerLimited, Agree, Affords, AllFull, AmountUpTo, IsLimited;
    assert DistinctOids(c.x) && DistinctOids(best.x) && IsDraft(best);
    if IsLimited(c.x, j) {
      if i: nat :| i < |best.x| && best.x[i].oid == c.x[j].oid {
        AmountAt(best, i);
        SharesLimited(o, kind, c, best, j, i);
        AgreeAt(c, best, j, i);
        AffordsAt(o, kind, best, i);
      } else {
        Coherence.AmountIsNone(best, c.x[j].oid);
      }
    }
  }

  lemma AgreeAt(c: Tflow, d: Tflow, j: nat, i: nat)
    requires Agree(c, d) && j < |c.x| && i < |d.x| && IsLimited(c.x, j) && IsLimited(d.x, i)
    requires c.x[j].oid == d.x[i].oid
    ensures c.x[j].qtt == d.x[i].qtt
  {}

  lemma AffordsAt(o: Order, kind: nat, c: Tflow, i: nat)
    requires RowFor(o, kind, c) && i < |c.x| && IsLimited(c.x, i)
    ensures c.flowr[i] <= c.x[i].qtt
  {}

  /** The reduction of a row raises nothing of its own. */
  lemma RowGives(o: Order, kind: nat, c: Tflow, best: Tflow)
    requires RowFor(o, kind, c) && RowFor(o, kind, best) && Agree(c, best) && QuoteType(kind)
    requires Executable(c) && Executable(best)
    ensures IsDraft(best) && |c.x| >= 2 && |best.x| >= 2 && AllCanGive(c.x, best)
    ensures c.x[|c.x| - 1].id == best.x[|best.x| - 1].id && c.x[|c.x| - 1].oid == o.oid && c.x[|c.x| - 1].id == o.id
    ensures c.x[|c.x| - 1].kind == kind && AllFull(c.x) && AllFull(best.x)
  {
    hide Executable, Agree, Affords, AllFull, Amount;
    ExecutableDraft(best);
    forall j | 0 <= j < |c.x|
      ensures CanGive(c.x[j], Amount(best, c.x[j].oid))
    {
      NodeGives(o, kind, c, best, j);
    }
  }

  lemma ExecutableDraft(c: Tflow)
    requires Executable(c)
    ensures IsDraft(c) && 2 <= |c.x| <= 64 && DistinctOids(c.x)
  {}

  /** The type of the last node after a round. */
  function NextKind(kind: nat, freeze: bool): nat {
    if IsIgnoreOmega(kind) && freeze then kind - 8 else kind
  }

  /** The nodes of a row after the round. */
  lemma ReducedFull(x: seq<Tfl>, best: Tflow, freeze: bool)
    requires |x| >= 2 && |best.x| >= 2 && IsDraft(best) && AllCanGive(x, best) && AllFull(x) && AllFull(best.x)
    ensures var z := ReducedNodes(x, best, freeze);
            && |z| == |x| && AllFull(z) && z[|z| - 1].kind == NextKind(x[|x| - 1].kind, freeze)
            && z[|z| - 1].id == x[|x| - 1].id && z[|z| - 1].oid == x[|x| - 1].oid
            && (forall j :: 0 <= j < |z| ==> z[j].oid == x[j].oid)
            && (forall j :: 0 <= j < |z| ==> x[j].qtt >= 0 ==> z[j].qtt >= 0)
  {
    hide Amount;
    assert FullNode(best.x[|best.x| - 1]) && FullNode(x[|x| - 1]);
  }

  lemma StocksPositive(c: Tflow)
    requires Affords(c) && IsDraft(c)
    ensures forall j :: 0 <= j < |c.x| && IsLimited(c.x, j) ==> c.x[j].qtt >= 0
  {}

  /** What the kernel can raise on such nodes. */
  lemma FullRaises(root: RootFunction, f: Tflow)
    requires IsRoot(root) && |f.x| <= 64 && AllFull(f.x) && DistinctOids(f.x)
    requires forall j :: 0 <= j < |f.x| ==> f.x[j].qtt >= 0
    ensures FlowcMaximum(root, f).Err? ==> FlowcMaximum(root, f).error == CannotBeRounded
  {
    KernelRaisesIff(root, f);
    SignsIff(f.x);
    DistinctIff(f.x);
    hide FlowcMaximum, DistinctOids, SomeTwice;
    assert NonNegative(f.x);
    assert !SomeUnpriced(f.x);
  }

  /** The stocks of the nodes of a row are not negative. */
  ghost predicate Signed(c: Tflow) {
    forall j :: 0 <= j < |c.x| ==> c.x[j].qtt >= 0
  }

  lemma FoundSigned(x: seq<Tfl>, g: Tflow)
    requires FoundNodes(x, g)
    ensures Signed(g)
  {
    hide Gains.AllPriced, DistinctOids;
  }

  lemma SameDistinct(x: seq<Tfl>, z: seq<Tfl>)
    requires DistinctOids(x) && |z| == |x| && forall j :: 0 <= j < |z| ==> z[j].oid == x[j].oid
    ensures DistinctOids(z)
  {}

  /** One row through a round: only the rounding can raise, and a draft is a row again. */
  lemma RowStays(root: RootFunction, o: Order, kind: nat, c: Tflow, best: Tflow, freeze: bool)
    requires IsRoot(root) && RowFor(o, kind, c) && RowFor(o, kind, best) && Agree(c, best) && QuoteType(kind)
    requires Executable(c) && Executable(best) && Signed(c)
    ensures var r := Reduce(root, c, best, freeze);
            if r.Err? then r.error == CannotBeRounded
            else IsDraft(r.value) ==> RowFor(o, NextKind(kind, freeze), r.value) && Signed(r.value)
  {
    hide *;
    RowGives(o, kind, c, best);
    ExecutableDraft(c);
    ReducedFull(c.x, best, freeze);
    var f := FlowRecord(ReducedNodes(c.x, best, freeze), c.flowr);
    SameDistinct(c.x, f.x);
    SignedAfter(c, f.x);
    FullRaises(root, f);
    ReduceIs(root, c, best, freeze);
    if Reduce(root, c, best, freeze).Ok? && IsDraft(Reduce(root, c, best, freeze).value) {
      var g := FlowcMaximum(root, f).value;
      DraftStatus(root, f, g);
      FoundIsRow(root, o, f, g.flow);
      FoundHasNodes(root, f, g.flow);
      FoundSigned(f.x, g.flow);
    }
  }

  lemma SignedAfter(c: Tflow, z: seq<Tfl>)
    requires Signed(c) && |z| == |c.x| && forall j :: 0 <= j < |z| ==> c.x[j].qtt >= 0 ==> z[j].qtt >= 0
    ensures forall j :: 0 <= j < |z| ==> z[j].qtt >= 0
  {}

  lemma ReduceIs(root: RootFunction, c: Tflow, best: Tflow, freeze: bool)
    requires IsRoot(root) && |c.x| >= 2 && |best.x| >= 2 && IsDraft(best) && AllCanGive(c.x, best)
    requires c.x[|c.x| - 1].id == best.x[|best.x| - 1].id
    ensures var m := FlowcMaximum(root, FlowRecord(ReducedNodes(c.x, best, freeze), c.flowr));
            Reduce(root, c, best, freeze) == if m.Ok? then Ok(m.value.flow) else Err(m.error)
  {
    hide FlowcMaximum, ReducedNodes, AllCanGive;
  }

  // ---------------------------------------------------------------------------
  // The table, and the loop

  ghost predicate AllSigned(tmp: seq<Tflow>) {
    forall k :: 0 <= k < |tmp| ==> Signed(tmp[k])
  }

  lemma {:induction false} RowInTable(o: Order, kind: nat, tmp: seq<Tflow>, best: Tflow, k: nat)
    requires TableFor(o, kind, tmp) && AllSigned(tmp) && AllExecutable(tmp) && best in tmp && k < |tmp|
    ensures RowFor(o, kind, tmp[k]) && RowFor(o, kind, best) && Agree(tmp[k], best) && Signed(tmp[k])
    ensures Executable(tmp[k]) && Executable(best)
  {
    hide RowFor, Agree, Signed, Executable;
  }

  lemma {:induction false} UpdateRaises(root: RootFunction, o: Order, kind: nat, tmp: seq<Tflow>, best: Tflow,
                                        freeze: bool, n: nat)
    requires IsRoot(root) && TableFor(o, kind, tmp) && AllSigned(tmp) && AllExecutable(tmp) && best in tmp
    requires Executable(best) && QuoteType(kind) && n <= |tmp|
    ensures UpdateAll(root, tmp[..n], best, freeze).Err? ==>
              UpdateAll(root, tmp[..n], best, freeze).error == CannotBeRounded
  {
    hide RowFor, Agree, Signed, Executable, Reduce, IsRoot, TableFor, AllSigned, QuoteType;
    if n > 0 {
      assert tmp[..n][..n - 1] == tmp[..n - 1];
      UpdateRaises(root, o, kind, tmp, best, freeze, n - 1);
      RowInTable(o, kind, tmp, best, n - 1);
      RowStays(root, o, kind, tmp[n - 1], best, freeze);
    }
  }

  lemma FreezesOf(o: Order, kind: nat, tmp: seq<Tflow>, freeze: bool)
    requires TableFor(o, kind, tmp) && QuoteType(kind)
    ensures AllFreezeUnlimited(tmp, freeze)
  {
    hide Affords, AllFull, AllAgree;
    forall k | 0 <= k < |tmp|
      ensures |tmp[k].x| >= 1 && FreezesUnlimited(tmp[k], freeze)
    {
      assert RowFor(o, kind, tmp[k]);
    }
  }

  /** A round keeps a table of the quote. */
  lemma TableStays(root: RootFunction, o: Order, kind: nat, tmp: seq<Tflow>, best: Tflow, freeze: bool)
    requires IsRoot(root) && TableFor(o, kind, tmp) && AllSigned(tmp) && AllExecutable(tmp) && best in tmp
    requires Executable(best) && QuoteType(kind) && UpdateAll(root, tmp, best, freeze).Ok?
    ensures var ds := Drafts(UpdateAll(root, tmp, best, freeze).value);
            TableFor(o, NextKind(kind, freeze), ds) && AllSigned(ds)
  {
    FreezesOf(o, kind, tmp, freeze);
    AgreesOf(o, kind, tmp);
    RoundKeepsAgree(root, tmp, best, freeze);
    hide RowFor, Agree, Signed, Executable, Reduce, IsRoot, QuoteType, UpdateAll, Drafts, NextKind, IsDraft, AllAgree;
    var us := UpdateAll(root, tmp, best, freeze).value;
    forall j | 0 <= j < |Drafts(us)|
      ensures RowFor(o, NextKind(kind, freeze), Drafts(us)[j]) && Signed(Drafts(us)[j])
    {
      var k := KeptRow(us, Drafts(us)[j]);
      UpdateAllAt(root, tmp, best, freeze, k);
      RowInTable(o, kind, tmp, best, k);
      RowStays(root, o, kind, tmp[k], best, freeze);
    }
  }

  lemma AgreesOf(o: Order, kind: nat, tmp: seq<Tflow>)
    requires TableFor(o, kind, tmp)
    ensures AllAgree(tmp)
  {
    hide AllAgree, RowFor;
  }

  lemma NextIsQuoteType(kind: nat, freeze: bool)
    requires QuoteType(kind)
    ensures QuoteType(NextKind(kind, freeze))
  {
    if IsIgnoreOmega(kind) {
      Thawed(kind);
    }
  }

  lemma QuoteRaises(t: Quoting, c: Tflow, flags: QuoteFlags, first: bool)
    requires |c.x| >= 2 && Quote(t, c, flags, first).Err?
    ensures Quote(t, c, flags, first).error == OutOfRange
  {}

  /** The loop raises only when a sum or a flow is out of range. */
  lemma {:induction false} LoopRaises(root: RootFunction, o: Order, kind: nat, tmp: seq<Tflow>, moved: nat,
                                      flags: QuoteFlags, t: Quoting, first: bool, done: seq<Tflow>)
    requires IsRoot(root) && TableFor(o, kind, tmp) && AllSigned(tmp) && AllExecutable(tmp) && QuoteType(kind)
    ensures var q := QuoteLoop(root, tmp, moved, flags, t, first, done);
            q.Err? ==> q.error == OutOfRange || q.error == CannotBeRounded
    decreases |tmp|
  {
    hide *;
    var best := Best(root, tmp);
    if tmp == [] || moved + |best.x| > MAXMVTPERTRANS {
      QuoteLoopStops(root, tmp, moved, flags, t, first, done);
    } else {
      BestIsDraft(root, tmp);
      ExecutableDraft(best);
      QuoteLoopTurn(root, tmp, moved, flags, t, first, done);
      var freeze := first && flags.isIgnoreOmega && flags.isQuote;
      var t1, us := Quote(t, best, flags, first), UpdateAll(root, tmp, best, freeze);
      if t1.Err? { QuoteRaises(t, best, flags, first); }
      UpdateRaises(root, o, kind, tmp, best, freeze, |tmp|);
      assert tmp[..|tmp|] == tmp;
      if t1.Ok? && us.Ok? {
        TableStays(root, o, kind, tmp, best, freeze);
        NextIsQuoteType(kind, freeze);
        LoopRaises(root, o, NextKind(kind, freeze), Drafts(us.value), moved + |best.x|, flags, t1.value, false,
                   done + [best]);
      }
    }
  }

  // ---------------------------------------------------------------------------
  // The table of a quote

  lemma PathNodes(book: seq<Row>, o: Order, now: int, p: Path, os: seq<Order>, x: seq<Tfl>)
    requires IsPathOf(book, o, now, |os|, p, os) && |os| >= 1
    requires x == p.path.x[|os| - 1 := p.path.x[|os| - 1].(proba := 1.0)]
    ensures |x| == |os| && AllFull(x)
    ensures x[|x| - 1].kind == o.kind && x[|x| - 1].id == o.id && x[|x| - 1].oid == o.oid
  {
    hide Matches;
  }

  lemma ClosedIsRow(root: RootFunction, book: seq<Row>, o: Order, now: int, p: Path)
    requires IsRoot(root) && SoundRow(book, o, now, 1, p)
    requires Finish(root, p.debut, p.path, p.fin).Ok?
    requires IsDraft(Finish(root, p.debut, p.path, p.fin).value)
    ensures RowFor(o, o.kind, Finish(root, p.debut, p.path, p.fin).value)
    ensures Signed(Finish(root, p.debut, p.path, p.fin).value)
  {
    hide FlowcMaximum, Matches, RowFor, IsDraft, Chain, AllFull, Signed, FoundNodes;
    var os: seq<Order> :| IsPathOf(book, o, now, |os|, p, os) && 1 <= |os| <= MAXCYCLE;
    var n := |p.path.x|;
    var f := FlowRecord(p.path.x[n - 1 := p.path.x[n - 1].(proba := 1.0)], p.path.flowr);
    PathNodes(book, o, now, p, os, f.x);
    var g := FlowcMaximum(root, f).value;
    DraftStatus(root, f, g);
    FoundIsRow(root, o, f, g.flow);
    FoundHasNodes(root, f, g.flow);
    FoundSigned(f.x, g.flow);
  }

  lemma {:induction false} CloseIsTable(root: RootFunction, book: seq<Row>, o: Order, now: int, ps: seq<Path>)
    requires IsRoot(root) && RowsSound(book, o, now, 1, ps) && Close(root, ps).Ok?
    ensures var tmp := Close(root, ps).value;
            (forall k :: 0 <= k < |tmp| ==> RowFor(o, o.kind, tmp[k])) && AllSigned(tmp)
  {
    hide Finish, SoundRow, IsRoot, Matches, RowFor, Signed;
    if |ps| > 0 {
      var init, p := ps[..|ps| - 1], ps[|ps| - 1];
      assert forall k :: 0 <= k < |init| ==> init[k] == ps[k];
      CloseIsTable(root, book, o, now, init);
      if Matches(p.fin, p.debut) && IsDraft(Finish(root, p.debut, p.path, p.fin).value) {
        ClosedIsRow(root, book, o, now, p);
      }
    }
  }

  lemma TableIsFor(root: RootFunction, book: seq<Row>, o: Order, now: int)
    requires IsRoot(root) && Quotable(book, o) && FcreateTmp(root, book, o, now).Ok?
    ensures TableFor(o, o.kind, FcreateTmp(root, book, o, now).value)
    ensures AllSigned(FcreateTmp(root, book, o, now).value)
  {
    TableAgrees(root, book, o, now);
    SearchIsChains(book, o, now);
    var rows := SearchFrom(book, FirstLevel(o), 1, now).value;
    hide RowsComplete, SearchFrom, Matches, Close, UniqueIds, AllAgree, RowFor, AllSigned;
    assert RowsSound(book, o, now, 1, Limited(rows));
    CloseIsTable(root, book, o, now, Limited(rows));
  }

  /** For the order types of the quotes, once the cycles have been found the dry run raises
      only when a sum or a flow is out of range: no row lacks what the executed cycle takes
      from a stock, and an unlimited stock is not asked for anything. */
  lemma QuoteRaisesOnly(root: RootFunction, book: seq<Row>, o: Order, now: int, flags: QuoteFlags)
    requires IsRoot(root) && Quotable(book, o) && Flagged(flags, o) && QuoteType(o.kind)
    requires FcreateTmp(root, book, o, now).Ok? && QuoteRun(root, book, o, now, flags).Err?
    ensures QuoteRun(root, book, o, now, flags).error in {OutOfRange, CannotBeRounded}
  {
    hide *;
    QuoteKeepsPrice(root, book, o, now, flags);
    TableIsFor(root, book, o, now);
    LoopRaises(root, o, o.kind, FcreateTmp(root, book, o, now).value, 0, flags, UNQUOTED, true, []);
  }

  // ---------------------------------------------------------------------------
  // The other types

  lemma SettledStock(x: seq<Tfl>, g: Tflow)
    requires FoundNodes(x, g) && IsIgnoreOmega(x[|x| - 1].kind)
    ensures |g.x| == |x| >= 2 && LastOf(g).qtt == Give(g)
  {
    hide Gains.AllPriced, NonNegative, DistinctOids;
  }

  /** With a type that ignores the price of a limited stock, which no quote has, a row that
      gives less than the executed one raises. */
  lemma OtherTypesRaise(root: RootFunction, f: Tflow, c: Tflow, best: Tflow, freeze: bool)
    requires IsRoot(root) && FlowcMaximum(root, f) == Ok(Computed(Draft, c)) && Executable(c) && Executable(best)
    requires LastOf(c).id == LastOf(best).id && LastOf(c).oid == LastOf(best).oid && !QuoteType(LastOf(c).kind)
    requires Give(c) < Give(best)
    ensures Reduce(root, c, best, freeze) == Err(FlowAboveStock)
  {
    hide FlowcMaximum, FoundNodes, SpendsOne, Rankable, Probable, InnerLimited, AmountUpTo, ReducedNodes;
    var n := |c.x|;
    FoundHasNodes(root, f, c);
    FoundLast(f.x, c);
    SettledStock(f.x, c);
    ExecutableDraft(best);
    AmountAt(best, |best.x| - 1);
    assert !CanGive(c.x[n - 1], Amount(best, c.x[n - 1].oid));
  }
}
