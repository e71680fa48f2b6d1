/** The price of a quote, whatever its flags: an ignored price is set by the first cycle,
    and kept by all the later ones. */
module QuotePrices {
  import opened Numeric
  import opened FlowTypes
  import opened Orders
  import opened Kernel
  import opened Guarantees
  import opened Yflow
  import opened Search
  import opened Matching
  import opened MarketRuns
  import opened Primitives
  import opened Quotes
  import Gains

  function LastOf(c: Tflow): Tfl
    requires |c.x| >= 2
  {
    c.x[|c.x| - 1]
  }

  /** What is given is within the price for what is received. */
  predicate Within(give: int, reci: int, prov: int, requ: int) {
    give * requ <= prov * reci
  }

  /** The price of the last order was ignored, and is what the cycle exchanges. */
  ghost predicate SetsItsPrice(c: Tflow, kind: nat) {
    && |c.x| >= 2 && LastOf(c).kind == kind
    && LastOf(c).qttRequ == Receive(c) && LastOf(c).qttProv == Give(c)
  }

  /** The last order has a price; if it is LIMIT, the cycle is within it. */
  ghost predicate AtPrice(c: Tflow, kind: nat, prov: nat, requ: nat) {
    && |c.x| >= 2 && LastOf(c).kind == kind
    && LastOf(c).qttRequ == requ && LastOf(c).qttProv == prov
    && (OrderType(kind) == ORDER_LIMIT ==> Within(Give(c), Receive(c), prov, requ))
  }

  ghost predicate AllSet(tmp: seq<Tflow>, kind: nat) {
    forall k :: 0 <= k < |tmp| ==> SetsItsPrice(tmp[k], kind)
  }

  ghost predicate AllAt(tmp: seq<Tflow>, kind: nat, prov: nat, requ: nat) {
    forall k :: 0 <= k < |tmp| ==> AtPrice(tmp[k], kind, prov, requ)
  }

  // ---------------------------------------------------------------------------
  // What the kernel finds

  lemma SettledLast(x: seq<Tfl>, g: Tflow)
    requires FoundNodes(x, g)
    ensures |g.x| == |x| >= 2 && LastOf(g).kind == x[|x| - 1].kind
    ensures if IgnoresOmega(x) then LastOf(g).qttRequ == Receive(g) && LastOf(g).qttProv == Give(g)
            else LastOf(g).qttRequ == x[|x| - 1].qttRequ && LastOf(g).qttProv == x[|x| - 1].qttProv
  {
    hide Gains.AllPriced, DistinctOids, NonNegative;
  }

  /** The draft found for a cycle sets the ignored price of its last order, or observes the
      price that it has. */
  lemma FoundPrice(root: RootFunction, f: Tflow, g: Tflow)
    requires IsRoot(root) && FlowcMaximum(root, f) == Ok(Computed(Draft, g))
    ensures |f.x| >= 2
    ensures var last := f.x[|f.x| - 1];
            if IsIgnoreOmega(last.kind) then SetsItsPrice(g, last.kind)
            else AtPrice(g, last.kind, last.qttProv, last.qttRequ)
  {
    hide *;
    FoundHasNodes(root, f, g);
    FoundLength(f.x, g);
    SettledLast(f.x, g);
    var n := |f.x|;
    LastIgnores(f.x);
    if f.x[n - 1].IsLimit() && !IgnoresOmega(f.x) {
      DraftObservesLimit(root, f, g, n - 1);
      LimitIsWithin(f.x[n - 1], g);
    }
    PriceOf(g, f.x[n - 1]);
  }

  lemma FoundLength(x: seq<Tfl>, g: Tflow)
    requires FoundNodes(x, g)
    ensures |x| >= 2
  {}

  lemma LastIgnores(x: seq<Tfl>)
    requires |x| >= 1
    ensures IgnoresOmega(x) <==> IsIgnoreOmega(x[|x| - 1].kind)
  {}

  lemma LimitIsWithin(b: Tfl, g: Tflow)
    requires |g.x| >= 2 && GivesWithinLimit(b, g.flowr[|g.x| - 1], g.flowr[Before(|g.x| - 1, |g.x|)])
    ensures Within(Give(g), Receive(g), b.qttProv, b.qttRequ)
  {}

  lemma PriceOf(g: Tflow, b: Tfl)
    requires |g.x| >= 2 && LastOf(g).kind == b.kind
    requires if IsIgnoreOmega(b.kind) then LastOf(g).qttRequ == Receive(g) && LastOf(g).qttProv == Give(g)
             else LastOf(g).qttRequ == b.qttRequ && LastOf(g).qttProv == b.qttProv
    requires b.IsLimit() && !IsIgnoreOmega(b.kind) ==> Within(Give(g), Receive(g), b.qttProv, b.qttRequ)
    ensures if IsIgnoreOmega(b.kind) then SetsItsPrice(g, b.kind) else AtPrice(g, b.kind, b.qttProv, b.qttRequ)
  {
    hide Within, IsIgnoreOmega;
  }

  // ---------------------------------------------------------------------------
  // One round

  /** The last node of a row, after the round. */
  lemma ReducedLast(x: seq<Tfl>, best: Tflow, freeze: bool)
    requires |x| >= 1 && |best.x| >= 2 && IsDraft(best) && AllCanGive(x, best)
    ensures var was, now := x[|x| - 1], ReducedNodes(x, best, freeze)[|x| - 1];
            if IsIgnoreOmega(was.kind) then
              && now.qttProv == LastOf(best).qttProv && now.qttRequ == LastOf(best).qttRequ
              && now.kind == if freeze then was.kind - 8 else was.kind
            else now.qttProv == was.qttProv && now.qttRequ == was.qttRequ && now.kind == was.kind
  {
    hide Amount;
  }

  /** A type with bit 8, and without it. */
  lemma Thawed(kind: nat)
    requires IsIgnoreOmega(kind)
    ensures kind >= 8 && !IsIgnoreOmega(kind - 8) && OrderType(kind - 8) == OrderType(kind)
  {
    var q := kind / 8;
    Odd(q);
    EightLess(kind, q);
    FourLess(kind);
  }

  lemma EightLess(kind: nat, q: nat)
    requires q == kind / 8 >= 1
    ensures kind >= 8 && (kind - 8) / 8 == q - 1
  {}

  lemma FourLess(kind: nat)
    requires kind >= 8
    ensures (kind - 8) % 4 == kind % 4
  {}

  lemma Odd(q: nat)
    requires q % 2 == 1
    ensures q >= 1 && (q - 1) % 2 == 0
  {}

  lemma ReducedIsFound(root: RootFunction, c: Tflow, best: Tflow, freeze: bool) returns (f: Tflow)
    requires IsRoot(root) && Executable(c) && Executable(best) && Reduce(root, c, best, freeze).Ok?
    requires IsDraft(Reduce(root, c, best, freeze).value)
    ensures |c.x| >= 2 && |best.x| >= 2 && AllCanGive(c.x, best) && f.x == ReducedNodes(c.x, best, freeze)
    ensures FlowcMaximum(root, f) == Ok(Computed(Draft, Reduce(root, c, best, freeze).value))
  {
    hide ReducedNodes, SpendsOne, DistinctOids, Rankable, Probable, FlowcMaximum, InnerLimited, IsDraft;
    f := FlowRecord(ReducedNodes(c.x, best, freeze), c.flowr);
    DraftStatus(root, f, FlowcMaximum(root, f).value);
  }

  /** After the first round of a quote that ignores its price, the price is the one that
      the first cycle has set. */
  lemma RowFreezes(root: RootFunction, c: Tflow, best: Tflow, kind: nat)
    requires IsRoot(root) && Executable(c) && Executable(best) && Reduce(root, c, best, true).Ok?
    requires IsDraft(Reduce(root, c, best, true).value) && IsIgnoreOmega(kind)
    requires SetsItsPrice(c, kind) && SetsItsPrice(best, kind)
    ensures |best.x| >= 2 && kind >= 8
    ensures AtPrice(Reduce(root, c, best, true).value, kind - 8, LastOf(best).qttProv, LastOf(best).qttRequ)
  {
    hide *;
    var f := ReducedIsFound(root, c, best, true);
    LastKind(c, kind);
    Thawed(kind);
    DraftOf(best);
    ReducedLast(c.x, best, true);
    FoundPrice(root, f, Reduce(root, c, best, true).value);
  }

  lemma DraftOf(c: Tflow)
    requires Executable(c)
    ensures IsDraft(c) && |c.x| >= 2
  {}

  lemma LastKind(c: Tflow, kind: nat)
    requires SetsItsPrice(c, kind)
    ensures |c.x| >= 2 && LastOf(c).kind == kind == c.x[|c.x| - 1].kind
  {}

  /** A price that is not ignored stays. */
  lemma RowKeepsPrice(root: RootFunction, c: Tflow, best: Tflow, freeze: bool, kind: nat, prov: nat, requ: nat)
    requires IsRoot(root) && Executable(c) && Executable(best) && Reduce(root, c, best, freeze).Ok?
    requires IsDraft(Reduce(root, c, best, freeze).value) && !IsIgnoreOmega(kind) && AtPrice(c, kind, prov, requ)
    ensures AtPrice(Reduce(root, c, best, freeze).value, kind, prov, requ)
  {
    hide *;
    var f := ReducedIsFound(root, c, best, freeze);
    LastPrice(c, kind, prov, requ);
    DraftOf(best);
    ReducedLast(c.x, best, freeze);
    FoundPrice(root, f, Reduce(root, c, best, freeze).value);
  }

  lemma LastPrice(c: Tflow, kind: nat, prov: nat, requ: nat)
    requires AtPrice(c, kind, prov, requ)
    ensures |c.x| >= 2 && LastOf(c) == c.x[|c.x| - 1]
    ensures LastOf(c).kind == kind && LastOf(c).qttProv == prov && LastOf(c).qttRequ == requ
    ensures OrderType(kind) == ORDER_LIMIT ==> Within(Give(c), Receive(c), prov, requ)
  {
    hide Within;
  }

  lemma {:induction false} KeptRow(tmp: seq<Tflow>, d: Tflow) returns (k: nat)
    requires d in Drafts(tmp)
    ensures k < |tmp| && tmp[k] == d && IsDraft(d)
  {
    k :| 0 <= k < |tmp| && tmp[k] == d;
  }

  lemma TableFreezes(root: RootFunction, tmp: seq<Tflow>, best: Tflow, kind: nat)
    requires IsRoot(root) && AllExecutable(tmp) && Executable(best) && UpdateAll(root, tmp, best, true).Ok?
    requires AllSet(tmp, kind) && SetsItsPrice(best, kind) && IsIgnoreOmega(kind)
    ensures |best.x| >= 2 && kind >= 8
    ensures AllAt(Drafts(UpdateAll(root, tmp, best, true).value), kind - 8, LastOf(best).qttProv, LastOf(best).qttRequ)
  {
    hide Executable, Reduce, UpdateAll, IsDraft, Drafts, SetsItsPrice, AtPrice, IsRoot, IsIgnoreOmega, LastOf;
    LastKind(best, kind);
    Thawed(kind);
    var us := UpdateAll(root, tmp, best, true).value;
    forall j | 0 <= j < |Drafts(us)|
      ensures AtPrice(Drafts(us)[j], kind - 8, LastOf(best).qttProv, LastOf(best).qttRequ)
    {
      var k := KeptRow(us, Drafts(us)[j]);
      UpdateAllAt(root, tmp, best, true, k);
      RowFreezes(root, tmp[k], best, kind);
    }
  }

  lemma TableKeepsPrice(root: RootFunction, tmp: seq<Tflow>, best: Tflow, freeze: bool, kind: nat, prov: nat,
                        requ: nat)
    requires IsRoot(root) && AllExecutable(tmp) && Executable(best) && UpdateAll(root, tmp, best, freeze).Ok?
    requires AllAt(tmp, kind, prov, requ) && !IsIgnoreOmega(kind)
    ensures AllAt(Drafts(UpdateAll(root, tmp, best, freeze).value), kind, prov, requ)
  {
    hide Executable, Reduce, UpdateAll, IsDraft, Drafts, AtPrice, IsRoot, IsIgnoreOmega;
    var us := UpdateAll(root, tmp, best, freeze).value;
    forall j | 0 <= j < |Drafts(us)|
      ensures AtPrice(Drafts(us)[j], kind, prov, requ)
    {
      var k := KeptRow(us, Drafts(us)[j]);
      UpdateAllAt(root, tmp, best, freeze, k);
      RowKeepsPrice(root, tmp[k], best, freeze, kind, prov, requ);
    }
  }

  // ---------------------------------------------------------------------------
  // The loop

  /** What the loop leaves after the cycles `done` and the quoting t: the later cycles are
      at the price, and, for a LIMIT order, so is what they add up. */
  ghost predicate Priced(kind: nat, prov: nat, requ: nat, t: Quoting, done: seq<Tflow>, v: Visited) {
    && done <= v.cycles
    && (forall k :: |done| <= k < |v.cycles| ==> AtPrice(v.cycles[k], kind, prov, requ))
    && (OrderType(kind) == ORDER_LIMIT ==>
          Within(v.quoting.totals.give - t.totals.give, v.quoting.totals.reci - t.totals.reci, prov, requ))
    && v.quoting.totals.reci >= t.totals.reci
  }

  lemma PricedNow(kind: nat, prov: nat, requ: nat, t: Quoting, done: seq<Tflow>)
    ensures Priced(kind, prov, requ, t, done, Visited(t, done))
  {}

  lemma WithinAdds(g1: int, r1: int, g2: int, r2: int, prov: int, requ: int)
    requires Within(g1, r1, prov, requ) && Within(g2, r2, prov, requ)
    ensures Within(g1 + g2, r1 + r2, prov, requ)
  {}

  lemma QuoteAdds(t: Quoting, c: Tflow, flags: QuoteFlags, first: bool)
    requires |c.x| >= 2 && Quote(t, c, flags, first).Ok?
    ensures var u := Quote(t, c, flags, first).value;
            && u.totals.give == t.totals.give + Give(c) && u.totals.reci == t.totals.reci + Receive(c)
            && if first && flags.isQuote then u.requ == LastOf(c).qttRequ && u.prov == LastOf(c).qttProv
               else u.requ == t.requ && u.prov == t.prov
  {}

  lemma PricedAfter(kind: nat, prov: nat, requ: nat, t: Quoting, done: seq<Tflow>, best: Tflow, u: Quoting, v: Visited)
    requires AtPrice(best, kind, prov, requ) && IsDraft(best)
    requires u.totals.give == t.totals.give + Give(best) && u.totals.reci == t.totals.reci + Receive(best)
    requires Priced(kind, prov, requ, u, done + [best], v)
    ensures Priced(kind, prov, requ, t, done, v)
  {
    hide Within;
    assert v.cycles[|done|] == (done + [best])[|done|];
    assert done <= done + [best];
    if OrderType(kind) == ORDER_LIMIT {
      WithinAdds(v.quoting.totals.give - u.totals.give, v.quoting.totals.reci - u.totals.reci, Give(best),
                 Receive(best), prov, requ);
    }
  }

  lemma RowAt(tmp: seq<Tflow>, c: Tflow, kind: nat, prov: nat, requ: nat)
    requires AllAt(tmp, kind, prov, requ) && c in tmp
    ensures AtPrice(c, kind, prov, requ)
  {
    hide AtPrice;
  }

  lemma RowSets(tmp: seq<Tflow>, c: Tflow, kind: nat)
    requires AllSet(tmp, kind) && c in tmp
    ensures SetsItsPrice(c, kind)
  {
    hide SetsItsPrice;
  }

  /** From a table at a price that is not ignored, all cycles are at it. */
  lemma {:induction false} LoopKeepsPrice(root: RootFunction, tmp: seq<Tflow>, moved: nat, flags: QuoteFlags,
                                          t: Quoting, done: seq<Tflow>, kind: nat, prov: nat, requ: nat)
    requires IsRoot(root) && AllExecutable(tmp) && AllAt(tmp, kind, prov, requ) && !IsIgnoreOmega(kind)
    ensures var q := QuoteLoop(root, tmp, moved, flags, t, false, done);
            q.Ok? ==>
              && Priced(kind, prov, requ, t, done, q.value)
              && q.value.quoting.requ == t.requ && q.value.quoting.prov == t.prov
    decreases |tmp|
  {
    hide *;
    var best := Best(root, tmp);
    if tmp == [] || moved + |best.x| > MAXMVTPERTRANS {
      QuoteLoopStops(root, tmp, moved, flags, t, false, done);
      PricedNow(kind, prov, requ, t, done);
    } else {
      BestIsDraft(root, tmp);
      LengthOf(best);
      RowAt(tmp, best, kind, prov, requ);
      QuoteLoopTurn(root, tmp, moved, flags, t, false, done);
      var t1, us := Quote(t, best, flags, false), UpdateAll(root, tmp, best, false);
      if t1.Ok? && us.Ok? {
        var ds := Drafts(us.value);
        TableKeepsPrice(root, tmp, best, false, kind, prov, requ);
        QuoteAdds(t, best, flags, false);
        LoopKeepsPrice(root, ds, moved + |best.x|, flags, t1.value, done + [best], kind, prov, requ);
        var q := QuoteLoop(root, tmp, moved, flags, t, false, done);
        if q.Ok? { PricedAfter(kind, prov, requ, t, done, best, t1.value, q.value); }
      }
    }
  }

  /** The flags of a quote of the order. */
  predicate Flagged(flags: QuoteFlags, o: Order) {
    && flags.isQuote
    && (flags.isIgnoreOmega <==> IsIgnoreOmega(o.kind))
    && (flags.isLimit <==> OrderType(o.kind) == ORDER_LIMIT)
  }

  /** The price of a quote: each cycle is at it, and for a LIMIT order so are the totals. */
  ghost predicate QuotedAt(o: Order, v: Visited) {
    var q := v.quoting;
    && (forall k :: 0 <= k < |v.cycles| ==>
          && |v.cycles[k].x| >= 2
          && LastOf(v.cycles[k]).qttProv == q.prov && LastOf(v.cycles[k]).qttRequ == q.requ
          && (OrderType(o.kind) == ORDER_LIMIT ==> Within(Give(v.cycles[k]), Receive(v.cycles[k]), q.prov, q.requ)))
    && (OrderType(o.kind) == ORDER_LIMIT ==> Within(q.totals.give, q.totals.reci, q.prov, q.requ))
    && if v.cycles == [] then q.requ == 0
       else
         && q.totals.reci > 0
         && if IsIgnoreOmega(o.kind) then q.prov == Give(v.cycles[0]) && q.requ == Receive(v.cycles[0])
            else q.prov == o.qttProv && q.requ == o.qttRequ
  }

  /** The rows of the table are at the price of the order, or set it when it is ignored. */
  ghost predicate TableOf(o: Order, tmp: seq<Tflow>) {
    if IsIgnoreOmega(o.kind) then AllSet(tmp, o.kind) else AllAt(tmp, o.kind, o.qttProv, o.qttRequ)
  }

  lemma NoneQuoted(o: Order)
    ensures QuotedAt(o, Visited(UNQUOTED, [])) && UNQUOTED.totals.give == UNQUOTED.totals.reci == 0
  {}

  lemma LoopQuotes(root: RootFunction, o: Order, tmp: seq<Tflow>, flags: QuoteFlags)
    requires IsRoot(root) && AllExecutable(tmp) && TableOf(o, tmp) && Flagged(flags, o)
    ensures var q := QuoteLoop(root, tmp, 0, flags, UNQUOTED, true, []);
            q.Ok? ==> QuotedAt(o, q.value)
  {
    hide *;
    NoneQuoted(o);
    var best := Best(root, tmp);
    if tmp == [] || 0 + |best.x| > MAXMVTPERTRANS {
      QuoteLoopStops(root, tmp, 0, flags, UNQUOTED, true, []);
    } else {
      BestIsDraft(root, tmp);
      LengthOf(best);
      QuoteLoopTurn(root, tmp, 0, flags, UNQUOTED, true, []);
      FirstRow(o, tmp, best, flags);
      var freeze := true && flags.isIgnoreOmega && flags.isQuote;
      var t1, us := Quote(UNQUOTED, best, flags, true), UpdateAll(root, tmp, best, freeze);
      if t1.Ok? && us.Ok? {
        var kind := FirstRound(root, o, tmp, best, flags);
        QuoteAdds(UNQUOTED, best, flags, true);
        LoopKeepsPrice(root, Drafts(us.value), 0 + |best.x|, flags, t1.value, [] + [best], kind, LastOf(best).qttProv,
                       LastOf(best).qttRequ);
        var q := QuoteLoop(root, tmp, 0, flags, UNQUOTED, true, []);
        if q.Ok? { AllQuoted(o, best, t1.value, kind, q.value); }
      }
    }
  }

  /** The first row taken. */
  lemma FirstRow(o: Order, tmp: seq<Tflow>, best: Tflow, flags: QuoteFlags)
    requires TableOf(o, tmp) && best in tmp && Flagged(flags, o)
    ensures flags.isQuote && (flags.isIgnoreOmega <==> IsIgnoreOmega(o.kind))
    ensures if IsIgnoreOmega(o.kind) then SetsItsPrice(best, o.kind)
            else AtPrice(best, o.kind, o.qttProv, o.qttRequ)
  {
    hide SetsItsPrice, AtPrice;
  }

  lemma FirstRound(root: RootFunction, o: Order, tmp: seq<Tflow>, best: Tflow, flags: QuoteFlags) returns (kind: nat)
    requires IsRoot(root) && AllExecutable(tmp) && Executable(best) && best in tmp
    requires TableOf(o, tmp) && Flagged(flags, o)
    requires UpdateAll(root, tmp, best, flags.isIgnoreOmega && flags.isQuote).Ok?
    ensures |best.x| >= 2 && !IsIgnoreOmega(kind) && OrderType(kind) == OrderType(o.kind)
    ensures AllAt(Drafts(UpdateAll(root, tmp, best, flags.isIgnoreOmega && flags.isQuote).value), kind,
                  LastOf(best).qttProv, LastOf(best).qttRequ)
  {
    hide *;
    FirstRow(o, tmp, best, flags);
    TableIs(o, tmp);
    if IsIgnoreOmega(o.kind) {
      TableFreezes(root, tmp, best, o.kind);
      Thawed(o.kind);
      kind := o.kind - 8;
    } else {
      LastPrice(best, o.kind, o.qttProv, o.qttRequ);
      TableKeepsPrice(root, tmp, best, flags.isIgnoreOmega && flags.isQuote, o.kind, o.qttProv, o.qttRequ);
      kind := o.kind;
    }
  }

  lemma TableIs(o: Order, tmp: seq<Tflow>)
    requires TableOf(o, tmp)
    ensures if IsIgnoreOmega(o.kind) then AllSet(tmp, o.kind) else AllAt(tmp, o.kind, o.qttProv, o.qttRequ)
  {}

  lemma AllQuoted(o: Order, best: Tflow, t: Quoting, kind: nat, v: Visited)
    requires |best.x| >= 2 && IsDraft(best) && OrderType(kind) == OrderType(o.kind)
    requires if IsIgnoreOmega(o.kind) then SetsItsPrice(best, o.kind)
             else AtPrice(best, o.kind, o.qttProv, o.qttRequ)
    requires t.totals.give == 0 + Give(best) && t.totals.reci == 0 + Receive(best)
    requires Priced(kind, LastOf(best).qttProv, LastOf(best).qttRequ, t, [] + [best], v)
    requires v.quoting.requ == t.requ == LastOf(best).qttRequ && v.quoting.prov == t.prov == LastOf(best).qttProv
    ensures QuotedAt(o, v)
  {
    var prov, requ := LastOf(best).qttProv, LastOf(best).qttRequ;
    assert v.cycles[0] == best;
    assert OrderType(kind) == ORDER_LIMIT ==> Within(Give(best), Receive(best), prov, requ) by {
      if IsIgnoreOmega(o.kind) { SetIsWithin(Give(best), Receive(best)); }
    }
    hide Within, IsIgnoreOmega;
    if OrderType(kind) == ORDER_LIMIT {
      WithinAdds(v.quoting.totals.give - t.totals.give, v.quoting.totals.reci - t.totals.reci, Give(best),
                 Receive(best), prov, requ);
    }
  }

  lemma SetIsWithin(give: int, reci: int)
    ensures Within(give, reci, give, reci)
  {}

  // ---------------------------------------------------------------------------
  // The table of a quote

  /** What is closed into a draft sets the price, or is at it. */
  lemma ClosedAt(root: RootFunction, book: seq<Row>, o: Order, now: int, p: Path)
    requires IsRoot(root) && SoundRow(book, o, now, 1, p)
    requires Finish(root, p.debut, p.path, p.fin).Ok?
    requires IsDraft(Finish(root, p.debut, p.path, p.fin).value)
    ensures var c := Finish(root, p.debut, p.path, p.fin).value;
            if IsIgnoreOmega(o.kind) then SetsItsPrice(c, o.kind) else AtPrice(c, o.kind, o.qttProv, o.qttRequ)
  {
    hide FlowcMaximum, Matches, SetsItsPrice, AtPrice, IsIgnoreOmega, IsDraft, Chain, LastOf;
    var os: seq<Order> :| IsPathOf(book, o, now, |os|, p, os) && 1 <= |os| <= MAXCYCLE;
    LastOfPath(book, o, now, p, os);
    var n := |p.path.x|;
    var f := FlowRecord(p.path.x[n - 1 := p.path.x[n - 1].(proba := 1.0)], p.path.flowr);
    DraftStatus(root, f, FlowcMaximum(root, f).value);
    FoundPrice(root, f, FlowcMaximum(root, f).value.flow);
  }

  lemma LastOfPath(book: seq<Row>, o: Order, now: int, p: Path, os: seq<Order>)
    requires IsPathOf(book, o, now, |os|, p, os) && |os| >= 1
    ensures var b := p.path.x;
            |b| >= 1 && b[|b| - 1].kind == o.kind && b[|b| - 1].qttProv == o.qttProv && b[|b| - 1].qttRequ == o.qttRequ
  {
    hide Matches;
  }

  lemma {:induction false} CloseAt(root: RootFunction, book: seq<Row>, o: Order, now: int, ps: seq<Path>)
    requires IsRoot(root) && RowsSound(book, o, now, 1, ps) && Close(root, ps).Ok?
    ensures TableOf(o, Close(root, ps).value)
  {
    hide Finish, SoundRow, IsRoot, Matches, SetsItsPrice, AtPrice, IsIgnoreOmega;
    if |ps| > 0 {
      var init, p := ps[..|ps| - 1], ps[|ps| - 1];
      assert forall k :: 0 <= k < |init| ==> init[k] == ps[k];
      CloseAt(root, book, o, now, init);
      if Matches(p.fin, p.debut) && IsDraft(Finish(root, p.debut, p.path, p.fin).value) {
        ClosedAt(root, book, o, now, p);
      }
    }
  }

  lemma TableAtPrice(root: RootFunction, book: seq<Row>, o: Order, now: int)
    requires IsRoot(root) && Quotable(book, o) && FcreateTmp(root, book, o, now).Ok?
    ensures TableOf(o, FcreateTmp(root, book, o, now).value)
  {
    SearchIsChains(book, o, now);
    var rows := SearchFrom(book, FirstLevel(o), 1, now).value;
    hide RowsComplete, SearchFrom, Matches, Close, UniqueIds, TableOf;
    assert RowsSound(book, o, now, 1, Limited(rows));
    CloseAt(root, book, o, now, Limited(rows));
  }

  /** Whatever its flags, a quote has one price: the price of the order or, when it is
      ignored, what its first cycle exchanges. Each of its cycles ends at this price; for a
      LIMIT order each of them, and all of them together, give at most the price for what
      they receive. So the exception on the limit is never raised. */
  lemma QuoteKeepsPrice(root: RootFunction, book: seq<Row>, o: Order, now: int, flags: QuoteFlags)
    requires IsRoot(root) && Quotable(book, o) && Flagged(flags, o) && FcreateTmp(root, book, o, now).Ok?
    ensures AllExecutable(FcreateTmp(root, book, o, now).value)
    ensures QuoteLoop(root, FcreateTmp(root, book, o, now).value, 0, flags, UNQUOTED, true, [])
            == QuoteRun(root, book, o, now, flags)
    ensures QuoteRun(root, book, o, now, flags).Ok? ==> QuotedAt(o, QuoteRun(root, book, o, now, flags).value)
  {
    hide *;
    QuoteTableExecutable(root, book, o, now);
    TableAtPrice(root, book, o, now);
    var tmp := FcreateTmp(root, book, o, now).value;
    LoopQuotes(root, o, tmp, flags);
    var q := QuoteLoop(root, tmp, 0, flags, UNQUOTED, true, []);
    if q.Ok? { NotAbove(o, q.value, flags); }
    RunIsLoop(root, book, o, now, flags);
  }

  lemma RunIsLoop(root: RootFunction, book: seq<Row>, o: Order, now: int, flags: QuoteFlags)
    requires IsRoot(root) && Quotable(book, o) && FcreateTmp(root, book, o, now).Ok?
    requires AllExecutable(FcreateTmp(root, book, o, now).value)
    ensures var q := QuoteLoop(root, FcreateTmp(root, book, o, now).value, 0, flags, UNQUOTED, true, []);
            QuoteRun(root, book, o, now, flags) == if q.Ok? then QuoteChecked(q.value, flags) else q
  {
    hide FcreateTmp, QuoteLoop, QuoteChecked, Quotable, AllExecutable, IsRoot;
  }

  lemma NotAbove(o: Order, v: Visited, flags: QuoteFlags)
    requires QuotedAt(o, v) && Flagged(flags, o)
    ensures QuoteChecked(v, flags) == Ok(v)
  {
    var q := v.quoting;
    if q.requ != 0 && OrderType(o.kind) == ORDER_LIMIT {
      assert q.totals.reci > 0 && Within(q.totals.give, q.totals.reci, q.prov, q.requ);
      var first := LastOf(v.cycles[0]);
      AboveIff(q.totals.give, q.totals.reci, q.prov, q.requ);
    }
  }

  lemma AboveIff(give: int, reci: int, prov: int, requ: int)
    requires reci >= 0 && requ > 0
    ensures AboveLimit(give, reci, prov, requ) <==> reci == 0 || !Within(give, reci, prov, requ)
  {
    if reci > 0 {
      RatioCross(give as real, reci as real, prov as real, requ as real);
      IntsAsReals(give, requ);
      IntsAsReals(prov, reci);
    }
  }

  /** What a quote with any flags raises on its limit: nothing without a price; with one, the
      totals must be within it. */
  lemma LimitRaisedIff(v: Visited, flags: QuoteFlags)
    requires v.quoting.totals.reci >= 0 && v.quoting.requ >= 0
    ensures var q := v.quoting;
            QuoteChecked(v, flags) ==
            if flags.isLimit && flags.isQuote && q.requ != 0
               && (q.totals.reci == 0 || q.totals.give * q.requ > q.prov * q.totals.reci)
            then Err(LimitNotObserved) else Ok(v)
  {
    var q := v.quoting;
    if q.requ != 0 { AboveIff(q.totals.give, q.totals.reci, q.prov, q.requ); }
  }
}
