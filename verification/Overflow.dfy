/** An accepted order that cannot be inserted: what it would receive over its cycles
    is out of the range of bigint. */
module Overflow {
  import opened Numeric
  import opened FlowTypes
  import opened Orders
  import opened Owners
  import opened Gains
  import opened Kernel
  import opened Guarantees
  import opened Yflow
  import opened Search
  import opened Cycles
  import opened Matching
  import opened MarketRuns
  import opened Primitives
  import opened Quotes

  const BIG: int := 0x4000_0000_0000_0000

  // ---------------------------------------------------------------------------
  // One cycle: a partner with a big stock, cheap for the new order

  /** A partner that provides BIG for 1, and an order that provides 16 for BIG. */
  predicate CheapCycle(x: seq<Tfl>) {
    && |x| == 2
    && x[0].kind == ORDER_BEST && x[1].kind == ORDER_BEST
    && x[0].own != x[1].own && x[0].oid != x[1].oid
    && x[0].qttRequ == 1 && x[0].qttProv == BIG && x[0].qtt == BIG && x[0].proba > 0.0
    && x[1].qttRequ == BIG && x[1].qttProv == 16 && 5 <= x[1].qtt <= 16 && x[1].proba > 0.0
  }

  lemma CheapIsPlain(x: seq<Tfl>)
    requires CheapCycle(x)
    ensures Plain(x) && CalType(x) == CycleBest && Ready(x, false)
    ensures Opened(x) == x && !IgnoresOmega(x)
  {}

  lemma CheapOmega(x: seq<Tfl>)
    requires CheapCycle(x)
    ensures AllPriced(x, false)
    ensures Omegas(x, false) == [BIG as real, 16.0 / BIG as real] && ProdOmega(x, false) == 16.0
  {
    CheapIsPlain(x);
    OmegaAt(x, false, 0);
    OmegaAt(x, false, 1);
    var omega := Omegas(x, false);
    assert omega == [BIG as real] + [16.0 / BIG as real];
    ProdSnoc([BIG as real], 16.0 / BIG as real);
    ProdSnoc([], BIG as real);
    assert [] + [BIG as real] == [BIG as real];
    ProdOfOmegas(x, false);
  }

  lemma CheapGroups(x: seq<Tfl>)
    requires CheapCycle(x)
    ensures Grouped(x) == Grouping(2, [0, 1])
  {
    var own := OwnersOf(x);
    assert own == [x[0].own, x[1].own];
    assert FindClass(own, 0, 0, 0) == 0;
    assert Group(own, 1) == Grouping(1, [0]);
    assert FindClass(own, 1, 0, 1) == 1;
    assert Group(own, 2) == Grouping(2, [0, 1]);
  }

  lemma RootOfSixteen(root: RootFunction)
    requires IsRoot(root)
    ensures root(16.0, 2) == 4.0
  {
    var r := root(16.0, 2);
    assert Pow(4.0, 1) == 4.0 && Pow(4.0, 2) == 16.0;
    if r < 4.0 { PowStrict(r, 4.0, 2); }
    if r > 4.0 { PowStrict(4.0, r, 2); }
  }

  /** Of the gain of 16 each owner takes 4. */
  lemma CheapCorrected(root: RootFunction, x: seq<Tfl>)
    requires IsRoot(root) && CheapCycle(x)
    ensures Ready(x, false) && 4.0 * Corrected(root, x, false)[1] == 16.0 / BIG as real
  {
    CheapIsPlain(x);
    CheapOmega(x);
    CheapGroups(x);
    RootOfSixteen(root);
    var g := Grouped(x);
    assert Count([0, 1], 1) == 1 by { assert [0, 1][..1] == [0]; assert [0][..0] == []; }
    assert NodeGains(root, 16.0, g)[1] == 4.0;
    hide NodeGains, Omegas, Grouped, Ready, CheapCycle;
    assert OmegaCorrige(root, Omegas(x, false), g, 16.0)[1] * 4.0 == Omegas(x, false)[1];
  }

  /** The partner is exhausted, for a price of 4. */
  lemma CheapExact(root: RootFunction, x: seq<Tfl>)
    requires IsRoot(root) && CheapCycle(x)
    ensures Ready(x, false)
    ensures Exhausted(root, x, false) == 0 && Exact(root, x, false) == [BIG as real, 4.0]
  {
    CheapIsPlain(x);
    CheapCorrected(root, x);
    ExactFits(root, x, false);
    ExactCloses(root, x, false, 1);
    hide Exact, Exhausted, Corrected, Ready, IsRoot;
    var f, om := Exact(root, x, false), Corrected(root, x, false)[1];
    assert f[0] <= BIG as real && f[1] <= x[1].qtt as real;
    FourTimes(om, f[0], f[1]);
  }

  lemma FourTimes(om: real, a: real, b: real)
    requires 4.0 * om == 16.0 / BIG as real && b == om * a
    ensures b * BIG as real == 4.0 * a
  {
    assert om * BIG as real == 4.0;
    assert b * BIG as real == om * BIG as real * a;
  }

  /** What the kernel finds: the whole stock of the partner for 4 or 5. */
  ghost predicate BigDraft(g: Tflow) {
    |g.x| == 2 && g.flowr[0] == BIG && 4 <= g.flowr[1] <= 5
  }

  lemma CheapDraft(root: RootFunction, f: Tflow)
    requires IsRoot(root) && CheapCycle(f.x)
    ensures FlowcMaximum(root, f).Ok? && FlowcMaximum(root, f).value.status == Draft
    ensures var g := FlowcMaximum(root, f).value.flow; g.x == f.x && BigDraft(g) && IsDraft(g)
  {
    CheapIsPlain(f.x);
    PlainComputes(root, f);
    AllBestIsFound(root, f);
    CheapExact(root, f.x);
    var g := FlowcMaximum(root, f).value.flow;
    DraftNearExact(root, f, g);
    hide FlowcMaximum, Exact, Exhausted, Ready, Plain, IsRoot, CalType;
    assert WithinOne(g.flowr, [BIG as real, 4.0]);
  }

  // ---------------------------------------------------------------------------
  // The market

  function Partner(id: int): Row {
    Row("partner", "partner", Order(ORDER_BEST, id, id, id, 1, "Y", BIG, "X", BIG), None)
  }

  /** Two partners, of different owners. */
  const BOOK: seq<Row> := [Partner(1), Partner(2)]

  /** The new order asks for X and provides Y. */
  const NEWCOMER: Order := Order(ORDER_BEST, 3, 3, 3, BIG, "X", 16, "Y", 16)

  lemma BookIsValid()
    ensures ValidBook(BOOK) && NewOrder(BOOK, NEWCOMER) && UniqueIds(BOOK, NEWCOMER) && PlainOrders(BOOK, NEWCOMER)
  {
    BookRows();
    hide BOOK, NEWCOMER, Partner;
    assert ParentAt(BOOK, 1, 0) && ParentAt(BOOK, 2, 1);
  }

  lemma BookRows()
    ensures |BOOK| == 2 && BOOK[0] == Partner(1) && BOOK[1] == Partner(2)
    ensures forall id :: Partner(id).ord.id == id && Partner(id).ord.oid == id && Partner(id).ord.kind == ORDER_BEST
    ensures forall id :: Partner(id).ord.qtt == BIG && Partner(id).ord.quaProv == "X"
    ensures NEWCOMER.id == 3 && NEWCOMER.oid == 3 && NEWCOMER.kind == ORDER_BEST
  {}

  lemma QualitiesDiffer()
    ensures MatchQuality("X", "X") && MatchQuality("Y", "Y") && !MatchQuality("X", "Y") && !MatchQuality("Y", "X")
    ensures Accepted(NEWCOMER)
  {
    assert Stars("X") == 0 && Stars("Y") == 0;
    assert "X"[0] != "Y"[0];
  }

  /** The paths fetched: the new order, and it with each partner. */
  function Pair(id: int): (os: seq<Order>)
    ensures |os| == 2
  {
    [Partner(id).ord, NEWCOMER]
  }

  lemma PairIsChain(now: int, k: nat)
    requires k < 2
    ensures Joins(BOOK[k], PathOf([NEWCOMER]), now)
    ensures Chain(BOOK, NEWCOMER, now, [NEWCOMER]) && Chain(BOOK, NEWCOMER, now, Pair(k + 1))
    ensures GrowBackward(BOOK[k].ord, NEWCOMER, PathOf([NEWCOMER]).path) == Ok(PathOf(Pair(k + 1)).path)
  {
    BookIsValid();
    QualitiesDiffer();
    hide MatchQuality;
    assert PathOf([NEWCOMER]).path.x[0].oid == 3;
    assert [BOOK[k].ord] + [NEWCOMER] == Pair(k + 1);
    GrowChain(BOOK, NEWCOMER, now, [NEWCOMER], k);
  }

  lemma JoinSnoc(book: seq<Row>, r: Row, y: Path, now: int, ps: seq<Path>, f: Tflow)
    requires JoinRows(book, y, now) == Ok(ps) && Joins(r, y, now) && GrowBackward(r.ord, y.debut, y.path) == Ok(f)
    ensures JoinRows(book + [r], y, now) ==
            Ok(ps + [Path(r.ord, f, y.fin, y.depth + 1, ContainsOid(r.ord.oid, y.path.x))])
  {
    hide GrowBackward, Joins;
    assert (book + [r])[..|book|] == book;
  }

  lemma JoinPartner(now: int, id: int, book: seq<Row>, ps: seq<Path>)
    requires id in {1, 2} && JoinRows(book, PathOf([NEWCOMER]), now) == Ok(ps)
    ensures JoinRows(book + [Partner(id)], PathOf([NEWCOMER]), now) == Ok(ps + [PathOf(Pair(id))])
  {
    PairIsChain(now, id - 1);
    PairFresh(id);
    assert BOOK[id - 1] == Partner(id);
    hide GrowBackward, Joins, Chain, JoinRows;
    var y := PathOf([NEWCOMER]);
    assert y.fin == NEWCOMER && y.debut == NEWCOMER && y.depth == 1;
    JoinSnoc(book, Partner(id), y, now, ps, PathOf(Pair(id)).path);
  }

  lemma FirstJoin(now: int)
    ensures JoinRows(BOOK, PathOf([NEWCOMER]), now) == Ok([PathOf(Pair(1)), PathOf(Pair(2))])
  {
    assert JoinRows([], PathOf([NEWCOMER]), now) == Ok([]);
    hide JoinRows, PathOf;
    JoinPartner(now, 1, [], []);
    assert [] + [Partner(1)] == [Partner(1)] && [] + [PathOf(Pair(1))] == [PathOf(Pair(1))];
    JoinPartner(now, 2, [Partner(1)], [PathOf(Pair(1))]);
    assert [Partner(1)] + [Partner(2)] == BOOK;
    assert [PathOf(Pair(1))] + [PathOf(Pair(2))] == [PathOf(Pair(1)), PathOf(Pair(2))];
  }

  lemma PairFresh(id: int)
    requires id != 3
    ensures !ContainsOid(id, PathOf([NEWCOMER]).path.x)
    ensures PathOf(Pair(id)) == Path(Partner(id).ord, PathOf(Pair(id)).path, NEWCOMER, 2, false)
  {
    assert PathOf([NEWCOMER]).path.x[0].oid == 3;
  }

  lemma NoMoreJoin(now: int, id: int)
    ensures JoinRows(BOOK, PathOf(Pair(id)), now) == Ok([])
  {
    QualitiesDiffer();
    hide MatchQuality;
    assert BOOK[..1] == [Partner(1)] && BOOK[..1][..0] == [];
    assert JoinRows(BOOK[..1], PathOf(Pair(id)), now) == Ok([]);
  }

  lemma {:induction false} SearchNothing(book: seq<Row>, depth: nat, now: int)
    requires depth <= MAXCYCLE
    ensures SearchFrom(book, [], depth, now) == Ok([])
    decreases MAXCYCLE - depth
  {
    if depth < MAXCYCLE {
      SearchNothing(book, depth + 1, now);
      var none: seq<Path> := [];
      assert none + none == none;
    }
  }

  const PATHS: seq<Path> := [PathOf([NEWCOMER]), PathOf(Pair(1)), PathOf(Pair(2))]

  /** The two partners are reached from the newcomer, and nothing from them. */
  lemma Levels(now: int)
    ensures NextLevel(BOOK, [PathOf([NEWCOMER])], now) == Ok([PathOf(Pair(1)), PathOf(Pair(2))])
    ensures NextLevel(BOOK, [PathOf(Pair(1)), PathOf(Pair(2))], now) == Ok([])
  {
    FirstJoin(now);
    NoMoreJoin(now, 1);
    NoMoreJoin(now, 2);
    hide JoinRows, PathOf;
    var l1, l2 := [PathOf([NEWCOMER])], [PathOf(Pair(1)), PathOf(Pair(2))];
    assert l1[..0] == [] && l2[..1] == [PathOf(Pair(1))] && l2[..1][..0] == [];
    assert [] + l2 == l2;
    assert l2[..1][0] == PathOf(Pair(1)) && l2[1] == PathOf(Pair(2));
    var none: seq<Path> := [];
    assert none + none == none;
    assert NextLevel(BOOK, l2[..1][..0], now) == Ok(none);
    assert NextLevel(BOOK, l2[..1], now) == Ok(none);
  }

  lemma Fetched(now: int)
    ensures SearchFrom(BOOK, FirstLevel(NEWCOMER), 1, now) == Ok(PATHS)
  {
    var l1, l2 := [PathOf([NEWCOMER])], [PathOf(Pair(1)), PathOf(Pair(2))];
    FirstIsPath();
    Levels(now);
    SearchNothing(BOOK, 3, now);
    hide NextLevel, PathOf, SearchFrom;
    SearchStep(BOOK, l2, 2, now, []);
    SearchStep(BOOK, l1, 1, now, l2);
    assert l2 + [] == l2 && l1 + l2 == PATHS;
  }

  lemma SearchStep(book: seq<Row>, level: seq<Path>, depth: nat, now: int, next: seq<Path>)
    requires depth < MAXCYCLE && NextLevel(book, level, now) == Ok(next)
    requires SearchFrom(book, next, depth + 1, now).Ok?
    ensures SearchFrom(book, level, depth, now) == Ok(level + SearchFrom(book, next, depth + 1, now).value)
  {}

  lemma FirstIsPath()
    ensures FirstLevel(NEWCOMER) == [PathOf([NEWCOMER])]
  {
    assert PathOf([NEWCOMER]).path.x == YflowInit(NEWCOMER).x;
    assert PathOf([NEWCOMER]).path.flowr == YflowInit(NEWCOMER).flowr;
  }

  // ---------------------------------------------------------------------------
  // Its cycles

  /** A cycle of the new order with one partner. */
  ghost predicate BigRow(c: Tflow) {
    CheapCycle(c.x) && BigDraft(c) && c.x[1].oid == 3 && c.x[1].id == 3
  }

  lemma PairFinishes(root: RootFunction, now: int, id: int)
    requires IsRoot(root) && id in {1, 2}
    ensures var p := PathOf(Pair(id)); Matches(p.fin, p.debut)
    ensures var p := PathOf(Pair(id)); Finish(root, p.debut, p.path, p.fin).Ok?
    ensures var p := PathOf(Pair(id));
            var c := Finish(root, p.debut, p.path, p.fin).value;
            IsDraft(c) && BigRow(c) && c.x[0].oid == id && c.x[1].qtt == 16
  {
    BookIsValid();
    QualitiesDiffer();
    PairIsChain(now, id - 1);
    FinishChain(root, BOOK, NEWCOMER, now, Pair(id));
    var f := FlowRecord(ClosedNodes(Pair(id)), Zeros(2));
    hide Finish, FlowcMaximum, Chain, MatchQuality, ValidBook, UniqueIds, PlainOrders;
    CheapDraft(root, f);
  }

  lemma CloseSnoc(root: RootFunction, ps: seq<Path>, p: Path, cs: seq<Tflow>)
    requires IsRoot(root) && Close(root, ps) == Ok(cs)
    ensures !Matches(p.fin, p.debut) ==> Close(root, ps + [p]) == Ok(cs)
    ensures Matches(p.fin, p.debut) && Finish(root, p.debut, p.path, p.fin).Ok?
            && IsDraft(Finish(root, p.debut, p.path, p.fin).value) ==>
              Close(root, ps + [p]) == Ok(cs + [Finish(root, p.debut, p.path, p.fin).value])
  {
    hide Finish, Matches, IsDraft;
    assert (ps + [p])[..|ps|] == ps;
  }

  /** The row of the temporary table for a pair. */
  function RowFor(root: RootFunction, id: int): Result<Tflow>
    requires IsRoot(root)
  {
    var p := PathOf(Pair(id));
    Finish(root, p.debut, p.path, p.fin)
  }

  lemma PairRow(root: RootFunction, now: int, id: int, ps: seq<Path>, cs: seq<Tflow>)
    requires IsRoot(root) && id in {1, 2} && Close(root, ps) == Ok(cs)
    ensures RowFor(root, id).Ok?
    ensures BigRow(RowFor(root, id).value) && RowFor(root, id).value.x[0].oid == id
    ensures RowFor(root, id).value.x[1].qtt == 16
    ensures Close(root, ps + [PathOf(Pair(id))]) == Ok(cs + [RowFor(root, id).value])
  {
    hide Finish, IsDraft, Matches, PathOf, Close;
    PairFinishes(root, now, id);
    CloseSnoc(root, ps, PathOf(Pair(id)), cs);
  }

  lemma Table(root: RootFunction, now: int) returns (a: Tflow, b: Tflow)
    requires IsRoot(root)
    ensures FcreateTmp(root, BOOK, NEWCOMER, now) == Ok([a, b])
    ensures BigRow(a) && BigRow(b) && a.x[0].oid != b.x[0].oid && a.x[1].qtt == 16 && b.x[1].qtt == 16
  {
    hide *;
    AloneIsNoCycle(root);
    var o, p, q := PathOf([NEWCOMER]), PathOf(Pair(1)), PathOf(Pair(2));
    PairRow(root, now, 1, [o], []);
    a := RowFor(root, 1).value;
    PairRow(root, now, 2, [o] + [p], [] + [a]);
    b := RowFor(root, 2).value;
    BigRowFacts(a);
    BigRowFacts(b);
    ThreePaths();
    assert [] + [a] + [b] == [a, b];
    TableIsClosed(root, now);
  }

  lemma ThreePaths()
    ensures [PathOf([NEWCOMER])] + [PathOf(Pair(1))] + [PathOf(Pair(2))] == PATHS
  {
    hide PathOf;
  }

  lemma AloneIsNoCycle(root: RootFunction)
    requires IsRoot(root)
    ensures Close(root, [PathOf([NEWCOMER])]) == Ok([])
  {
    QualitiesDiffer();
    hide MatchQuality, Finish;
    var o := PathOf([NEWCOMER]);
    CloseSnoc(root, [], o, []);
    assert [] + [o] == [o];
  }

  lemma TableIsClosed(root: RootFunction, now: int)
    requires IsRoot(root)
    ensures FcreateTmp(root, BOOK, NEWCOMER, now) == Close(root, PATHS)
  {
    Fetched(now);
    hide SearchFrom, Close, PathOf;
    assert "Y"[0] != "X"[0];
  }

  /** After one cycle the other one still exhausts its partner. */
  lemma OtherStaysBig(root: RootFunction, c: Tflow, best: Tflow)
    requires IsRoot(root) && BigRow(c) && BigRow(best) && IsDraft(best) && c.x[0].oid != best.x[0].oid
    requires c.x[1].qtt == 16 && Reduce(root, c, best, false).Ok?
    ensures var g := Reduce(root, c, best, false).value; BigRow(g) && IsDraft(g)
  {
    OtherNodes(c, best, false);
    hide FlowcMaximum, AllCanGive, ReducedNodes, IsDraft, CheapCycle;
    CheapDraft(root, FlowRecord(ReducedNodes(c.x, best, false), c.flowr));
  }

  lemma OtherNodes(c: Tflow, best: Tflow, freeze: bool)
    requires BigRow(c) && BigRow(best) && IsDraft(best) && c.x[0].oid != best.x[0].oid
    requires c.x[1].qtt == 16 && AllCanGive(c.x, best)
    ensures var z := ReducedNodes(c.x, best, freeze);
            CheapCycle(z) && z[1].oid == 3 && z[1].id == 3
  {
    AmountNone(best, 2, c.x[0].oid);
    AmountAt(best, 1);
    hide Amount, AmountUpTo;
    assert Amount(best, c.x[0].oid) == 0 && Amount(best, c.x[1].oid) == best.flowr[1] by {
      AmountOf(best, c.x[0].oid);
    }
  }

  lemma AmountOf(f: Tflow, oid: int)
    requires IsDraft(f)
    ensures Amount(f, oid) == AmountUpTo(f, |f.x|, oid)
  {
    hide AmountUpTo;
  }

  lemma LoopSucceeds(root: RootFunction, tmp: seq<Tflow>, moved: nat)
    requires IsRoot(root) && AllExecutable(tmp) && tmp != [] && MatchLoop(root, tmp, moved, false).Ok?
    requires moved + |Best(root, tmp).x| <= MAXMVTPERTRANS
    ensures UpdateAll(root, tmp, Best(root, tmp), false).Ok?
  {
    hide Best, AllExecutable, IsRoot, UpdateAll, Drafts, Executable;
  }

  /** In a table of big rows the best cycle receives a whole big stock. */
  lemma BigFirst(root: RootFunction, tmp: seq<Tflow>, moved: nat) returns (rest: seq<Tflow>)
    requires IsRoot(root) && AllExecutable(tmp) && tmp != [] && moved <= 2 && MatchLoop(root, tmp, moved, false).Ok?
    requires forall k :: 0 <= k < |tmp| ==> BigRow(tmp[k])
    ensures BigRow(Best(root, tmp)) && UpdateAll(root, tmp, Best(root, tmp), false).Ok?
    ensures var ds := Drafts(UpdateAll(root, tmp, Best(root, tmp), false).value);
            AllExecutable(ds) && MatchLoop(root, ds, moved + 2, false) == Ok(rest)
    ensures Long(rest) && Long(MatchLoop(root, tmp, moved, false).value)
    ensures TotalReceive(MatchLoop(root, tmp, moved, false).value) == BIG + TotalReceive(rest)
    ensures Trading(MatchLoop(root, tmp, moved, false).value) ==> Trading(rest)
  {
    BestIsDraft(root, tmp);
    var best := Best(root, tmp);
    assert BigRow(best);
    hide *;
    BigRowFacts(best);
    LoopSucceeds(root, tmp, moved);
    LoopGoesOn(root, tmp, moved, false);
    var ds := Drafts(UpdateAll(root, tmp, best, false).value);
    rest := MatchLoop(root, ds, moved + 2, false).value;
    ReceiveFirst(best, rest);
  }

  lemma BigRowFacts(c: Tflow)
    requires BigRow(c)
    ensures |c.x| == 2 && Receive(c) == BIG && MAXMVTPERTRANS == 128
  {}

  /** The other row is all that is left, still a big one. */
  lemma OtherIsLeft(root: RootFunction, a: Tflow, b: Tflow)
    requires IsRoot(root) && BigRow(a) && BigRow(b) && a.x[0].oid != b.x[0].oid
    requires a.x[1].qtt == 16 && b.x[1].qtt == 16 && AllExecutable([a, b])
    requires UpdateAll(root, [a, b], Best(root, [a, b]), false).Ok?
    ensures var ds := Drafts(UpdateAll(root, [a, b], Best(root, [a, b]), false).value);
            |ds| == 1 && BigRow(ds[0])
  {
    BestIsDraft(root, [a, b]);
    var best := Best(root, [a, b]);
    var us := UpdateAll(root, [a, b], best, false).value;
    UpdateAllAt(root, [a, b], best, false, 0);
    UpdateAllAt(root, [a, b], best, false, 1);
    SpentIsDropped(root, best, false);
    hide Best, UpdateAll, Reduce, Executable, BigRow, IsDraft;
    assert us == [us[0], us[1]];
    DraftsOfTwo(us[0], us[1]);
    if best == a {
      OtherStaysBig(root, b, best);
    } else {
      OtherStaysBig(root, a, best);
    }
  }

  lemma DraftsOfTwo(u: Tflow, v: Tflow)
    ensures IsDraft(u) && !IsDraft(v) ==> Drafts([u, v]) == [u]
    ensures !IsDraft(u) && IsDraft(v) ==> Drafts([u, v]) == [v]
  {
    hide IsDraft;
    assert [u, v][..1] == [u] && [u][..0] == [];
    assert Drafts([u]) == if IsDraft(u) then [u] else [];
  }

  /** The order is accepted, and its insertion and its quote raise out of range. */
  lemma AcceptedOverflows(root: RootFunction, now: int)
    requires IsRoot(root)
    ensures ValidBook(BOOK) && NewOrder(BOOK, NEWCOMER) && Accepted(NEWCOMER) && Quotable(BOOK, NEWCOMER)
    ensures var r := Row("newcomer", "newcomer", NEWCOMER, None);
            InsertOrder(root, Market(BOOK, [], 1), r, now) == Err(OutOfRange)
    ensures QuoteRun(root, BOOK, NEWCOMER, now, FlagsOf(NEWCOMER)) == Err(OutOfRange)
  {
    hide *;
    var r := Row("newcomer", "newcomer", NEWCOMER, None);
    var m := Market(BOOK, [], 1);
    BookIsValid();
    QualitiesDiffer();
    var cs := AcceptedHasCycles(root, BOOK, r, now);
    InsertAccepted(root, m, r, now, "", cs);
    ReceivesTooMuch(root, now, cs);
    QuoteOfAccepted(root, BOOK, r, now, cs);
  }

  lemma ReceivesTooMuch(root: RootFunction, now: int, cs: seq<Tflow>)
    requires IsRoot(root) && CyclesOf(root, BOOK, NEWCOMER, now, cs) && Long(cs)
    ensures TotalReceive(cs) > INT64_MAX
  {
    hide *;
    CyclesHave(root, BOOK, NEWCOMER, now, cs);
    var a, b := Table(root, now);
    var rest := BigFirst(root, [a, b], 0);
    OtherIsLeft(root, a, b);
    var ds := Drafts(UpdateAll(root, [a, b], Best(root, [a, b]), false).value);
    var last := BigFirst(root, ds, 2);
    TotalsPositive(last);
    TwiceBig();
  }

  lemma TwiceBig()
    ensures BIG + BIG > INT64_MAX
  {}
}
