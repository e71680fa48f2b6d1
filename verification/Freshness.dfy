/** The cache and a new search: every row left in the table by the rounds of the
    matching loop is what a new search in the book would find. */
module Freshness {
  import opened Numeric
  import opened FlowTypes
  import opened Orders
  import opened Kernel
  import opened Yflow
  import opened Search
  import opened Cycles
  import opened Matching
  import opened Coherence
  import opened Settlement
  import opened MarketRuns
  import opened Conservation
  import opened Primitives

  // ---------------------------------------------------------------------------
  // The search does not read the stocks

  /** The same order, but for what remains of its stock. */
  predicate SameOrder(a: Order, b: Order) {
    b == a.(qtt := b.qtt)
  }

  ghost predicate SameNodes(x: seq<Tfl>, y: seq<Tfl>) {
    |x| == |y| && forall i :: 0 <= i < |x| ==> y[i] == x[i].(qtt := y[i].qtt)
  }

  ghost predicate SamePath(p: Path, q: Path) {
    && SameOrder(p.debut, q.debut) && SameOrder(p.fin, q.fin)
    && SameNodes(p.path.x, q.path.x) && q.path.flowr == p.path.flowr
    && q.depth == p.depth && q.cycle == p.cycle
  }

  ghost predicate SamePaths(ps: seq<Path>, qs: seq<Path>) {
    |ps| == |qs| && forall k :: 0 <= k < |ps| ==> SamePath(ps[k], qs[k])
  }

  ghost predicate SameLevel(r: Result<seq<Path>>, s: Result<seq<Path>>) {
    if r.Ok? then s.Ok? && SamePaths(r.value, s.value) else s == r
  }

  lemma {:induction false} SameClash(a: Tfl, b: Tfl, x: seq<Tfl>, y: seq<Tfl>, i: nat)
    requires SameNodes(x, y) && a.id == b.id && a.oid == b.oid && i <= |x|
    ensures Clash(a, x, i).Some? <==> Clash(b, y, i).Some?
    ensures Clash(a, x, i).Some? ==> Clash(a, x, i).value.oid == Clash(b, y, i).value.oid
    decreases |x| - i
  {
    if i < |x| { SameClash(a, b, x, y, i + 1); }
  }

  lemma SameContains(oid: int, x: seq<Tfl>, y: seq<Tfl>)
    requires SameNodes(x, y)
    ensures ContainsOid(oid, x) <==> ContainsOid(oid, y)
  {
    assert forall i :: 0 <= i < |x| ==> (x[i].oid == oid <==> y[i].oid == oid);
  }

  lemma SameJoins(r: Row, s: Row, p: Path, q: Path, now: int)
    requires SameOrder(r.ord, s.ord) && s == r.(ord := s.ord) && SamePath(p, q)
    ensures Joins(r, p, now) <==> Joins(s, q, now)
    ensures ContainsOid(r.ord.oid, p.path.x) <==> ContainsOid(s.ord.oid, q.path.x)
  {
    SameContains(r.ord.oid, p.path.x, q.path.x);
    hide ContainsOid, SameNodes, MatchQuality;
  }

  /** One step backwards. */
  lemma SameGrowth(r: Row, s: Row, p: Path, q: Path, now: int)
    requires SameOrder(r.ord, s.ord) && s == r.(ord := s.ord) && SamePath(p, q) && Joins(r, p, now)
    ensures var g, h := GrowBackward(r.ord, p.debut, p.path), GrowBackward(s.ord, q.debut, q.path);
            if g.Err? then h == g
            else h.Ok? && h.value.flowr == g.value.flowr && SameNodes(g.value.x, h.value.x)
  {
    SameClash(ToFl(r.ord), ToFl(s.ord), p.path.x, q.path.x, 0);
    SameJoins(r, s, p, q, now);
    hide MatchQuality, ContainsOid, Live;
  }

  lemma SamePathsSnoc(ps: seq<Path>, qs: seq<Path>, p: Path, q: Path)
    requires SamePaths(ps, qs) && SamePath(p, q)
    ensures SamePaths(ps + [p], qs + [q])
  {
    hide SamePath;
  }

  lemma SamePathsConcat(ps: seq<Path>, qs: seq<Path>, ps2: seq<Path>, qs2: seq<Path>)
    requires SamePaths(ps, qs) && SamePaths(ps2, qs2)
    ensures SamePaths(ps + ps2, qs + qs2)
  {
    hide SamePath;
  }

  lemma {:induction false} SameRows(a: seq<Row>, b: seq<Row>, p: Path, q: Path, now: int)
    requires SameShape(a, b) && SamePath(p, q)
    ensures SameLevel(JoinRows(a, p, now), JoinRows(b, q, now))
  {
    if |a| > 0 {
      var n := |a| - 1;
      assert SameShape(a[..n], b[..n]);
      assert b[n] == a[n].(ord := b[n].ord) && SameOrder(a[n].ord, b[n].ord);
      hide SamePath, Joins, GrowBackward, SameShape, ContainsOid;
      SameRows(a[..n], b[..n], p, q, now);
      SameJoins(a[n], b[n], p, q, now);
      if JoinRows(a[..n], p, now).Ok? && Joins(a[n], p, now) { SameRow(a[n], b[n], p, q, now); }
    }
  }

  lemma SameRow(r: Row, s: Row, p: Path, q: Path, now: int)
    requires SameOrder(r.ord, s.ord) && s == r.(ord := s.ord) && SamePath(p, q) && Joins(r, p, now)
    ensures var g, h := GrowBackward(r.ord, p.debut, p.path), GrowBackward(s.ord, q.debut, q.path);
            if g.Err? then h == g
            else
              && h.Ok?
              && SamePath(Path(r.ord, g.value, p.fin, p.depth + 1, ContainsOid(r.ord.oid, p.path.x)),
                          Path(s.ord, h.value, q.fin, q.depth + 1, ContainsOid(s.ord.oid, q.path.x)))
  {
    SameGrowth(r, s, p, q, now);
    SameJoins(r, s, p, q, now);
    hide GrowBackward, Joins, ContainsOid, SameNodes;
  }

  lemma {:induction false} SameNext(a: seq<Row>, b: seq<Row>, ps: seq<Path>, qs: seq<Path>, now: int)
    requires SameShape(a, b) && SamePaths(ps, qs)
    ensures SameLevel(NextLevel(a, ps, now), NextLevel(b, qs, now))
  {
    hide SamePath, JoinRows, SameShape;
    if |ps| > 0 {
      var n := |ps| - 1;
      assert SamePaths(ps[..n], qs[..n]);
      SameNext(a, b, ps[..n], qs[..n], now);
      SameRows(a, b, ps[n], qs[n], now);
      var r, s := NextLevel(a, ps[..n], now), NextLevel(b, qs[..n], now);
      var t, u := JoinRows(a, ps[n], now), JoinRows(b, qs[n], now);
      if r.Ok? && t.Ok? { SamePathsConcat(r.value, s.value, t.value, u.value); }
    }
  }

  lemma {:induction false} SameSearch(a: seq<Row>, b: seq<Row>, ps: seq<Path>, qs: seq<Path>, depth: nat, now: int)
    requires depth <= MAXCYCLE && SameShape(a, b) && SamePaths(ps, qs)
    ensures SameLevel(SearchFrom(a, ps, depth, now), SearchFrom(b, qs, depth, now))
    decreases MAXCYCLE - depth
  {
    hide SamePath, NextLevel, SameShape, SamePaths;
    if depth < MAXCYCLE {
      SameNext(a, b, ps, qs, now);
      var r, s := NextLevel(a, ps, now), NextLevel(b, qs, now);
      if r.Ok? {
        SameSearch(a, b, r.value, s.value, depth + 1, now);
        var t, u := SearchFrom(a, r.value, depth + 1, now), SearchFrom(b, s.value, depth + 1, now);
        if t.Ok? { SamePathsConcat(ps, qs, t.value, u.value); }
      }
    }
  }

  lemma SameFirst(o: Order, p: Order)
    requires SameOrder(o, p)
    ensures SamePaths(FirstLevel(o), FirstLevel(p))
  {}

  /** The paths fetched are the same but for the stocks, one by one. */
  lemma SearchReadsNoStock(a: seq<Row>, b: seq<Row>, o: Order, p: Order, now: int)
    requires SameShape(a, b) && SameOrder(o, p)
    ensures var r, s := SearchFrom(a, FirstLevel(o), 1, now), SearchFrom(b, FirstLevel(p), 1, now);
            SameLevel(r, s) && (r.Ok? ==> SamePaths(Limited(r.value), Limited(s.value)))
  {
    SameFirst(o, p);
    SameSearch(a, b, FirstLevel(o), FirstLevel(p), 1, now);
    hide SamePath, SearchFrom, FirstLevel, SameShape;
  }

  // ---------------------------------------------------------------------------
  // One round

  /** Every row of the table is found by a search in the book. */
  ghost predicate AllFound(root: RootFunction, book: seq<Row>, o: Order, now: int, tmp: seq<Tflow>)
    requires IsRoot(root)
  {
    && FcreateTmp(root, book, o, now).Ok?
    && forall k :: 0 <= k < |tmp| ==> tmp[k] in FcreateTmp(root, book, o, now).value
  }

  /** Row i of the paths closes into the flow c. */
  predicate ClosesInto(root: RootFunction, p: Path, c: Tflow)
    requires IsRoot(root)
  {
    Matches(p.fin, p.debut) && Finish(root, p.debut, p.path, p.fin) == Ok(c) && IsDraft(c)
  }

  lemma {:induction false} CloseFrom(root: RootFunction, ps: seq<Path>, c: Tflow) returns (i: nat)
    requires IsRoot(root) && Close(root, ps).Ok? && c in Close(root, ps).value
    ensures i < |ps| && ClosesInto(root, ps[i], c)
  {
    hide Finish, Matches, IsDraft, IsRoot;
    var n := |ps| - 1;
    if c in Close(root, ps[..n]).value {
      i := CloseFrom(root, ps[..n], c);
    } else {
      i := n;
    }
  }

  /** The rows fetched, and the table made of them. */
  lemma FoundPaths(root: RootFunction, book: seq<Row>, o: Order, now: int) returns (ps: seq<Path>)
    requires IsRoot(root) && UniqueIds(book, o) && FcreateTmp(root, book, o, now).Ok?
    ensures SearchFrom(book, FirstLevel(o), 1, now).Ok?
    ensures ps == Limited(SearchFrom(book, FirstLevel(o), 1, now).value)
    ensures RowsSound(book, o, now, 1, ps) && Close(root, ps) == FcreateTmp(root, book, o, now)
  {
    SearchIsChains(book, o, now);
    var rows := SearchFrom(book, FirstLevel(o), 1, now).value;
    ps := Limited(rows);
    TableIsClosed(root, book, o, now);
    hide *;
    LimitedSound(book, o, now, rows);
  }

  lemma LimitedSound(book: seq<Row>, o: Order, now: int, rows: seq<Path>)
    requires RowsSound(book, o, now, 1, rows)
    ensures RowsSound(book, o, now, 1, Limited(rows))
  {
    hide SoundRow;
  }

  /** The chain of a path that closes, and what it closes into. */
  lemma ClosedChain(root: RootFunction, book: seq<Row>, o: Order, now: int, p: Path) returns (os: seq<Order>)
    requires IsRoot(root) && PlainOrders(book, o) && !Matches(o, o)
    requires SoundRow(book, o, now, 1, p) && Matches(p.fin, p.debut)
    ensures Chain(book, o, now, os) && 2 <= |os| <= MAXCYCLE && p == PathOf(os)
    ensures Regular(ClosedNodes(os)) && |ClosedNodes(os)| == |os|
    ensures var f := FlowRecord(ClosedNodes(os), Zeros(|os|));
            && FlowcMaximum(root, f).Ok? && FlowcMaximum(root, f).value.flow.x == f.x
            && Finish(root, p.debut, p.path, p.fin) == Ok(FlowcMaximum(root, f).value.flow)
  {
    hide FlowcMaximum, Finish, Regular, Chain, PlainOrders, Matches, SoundRow;
    os := ClosingRow(root, book, o, now, p);
    FinishChain(root, book, o, now, os);
    ClosedRegular(book, o, now, os);
    RegularComputes(root, FlowRecord(ClosedNodes(os), Zeros(|os|)));
  }

  /** Nodes of the same orders with the same stocks. */
  lemma SameClosed(x: seq<Tfl>, z: seq<Tfl>, os: seq<Order>, zs: seq<Order>, stock: Stock)
    requires |os| == |zs| && SameNodes(ChainNodes(os), ChainNodes(zs))
    requires x == ClosedNodes(os) && SameNodes(x, z) && Backed(z, stock)
    requires forall i :: 0 <= i < |zs| ==> zs[i].oid in stock && zs[i].qtt == stock[zs[i].oid]
    ensures ClosedNodes(zs) == z
  {
    forall i | 0 <= i < |zs|
      ensures ClosedNodes(zs)[i] == z[i]
    {
      assert ChainNodes(zs)[i] == ChainNodes(os)[i].(qtt := ChainNodes(zs)[i].qtt);
    }
  }

  /** The orders of a chain hold the stocks of the book. */
  lemma ChainBacked(book: seq<Row>, o: Order, now: int, zs: seq<Order>, stock: Stock, n: nat)
    requires Chain(book, o, now, zs) && BookBacked(book, stock) && n < |book| && book[n].ord == o
    ensures forall i :: 0 <= i < |zs| ==> zs[i].oid in stock && zs[i].qtt == stock[zs[i].oid]
  {
    hide Matches, Live;
    forall i | 0 <= i < |zs|
      ensures zs[i].oid in stock && zs[i].qtt == stock[zs[i].oid]
    {
      if i < |zs| - 1 { assert InBook(book, now, zs[i]); }
    }
  }

  /** The reduced nodes differ by their stocks only. */
  lemma ReducedSame(x: seq<Tfl>, best: Tflow)
    requires |x| >= 1 && IsDraft(best) && AllCanGive(x, best) && !IgnoresOmega(x)
    ensures SameNodes(x, ReducedNodes(x, best, false))
  {
    hide Amount;
  }

  /** The row that a path closed into, reduced by the executed cycle, is what the same
      path closes into in the new book. */
  lemma ReducedIsFound(root: RootFunction, a: seq<Row>, b: seq<Row>, o: Order, p: Order, now: int,
                       path: Path, later: Path, c: Tflow, best: Tflow, stock: Stock, n: nat)
    requires IsRoot(root) && PlainOrders(a, o) && PlainOrders(b, p) && !Matches(o, o) && SameOrder(o, p)
    requires SoundRow(a, o, now, 1, path) && SoundRow(b, p, now, 1, later) && SamePath(path, later)
    requires ClosesInto(root, path, c)
    requires Cached(root, o, stock, c) && Cached(root, o, stock, best)
    requires BookBacked(b, Debit(stock, best)) && n < |b| && b[n].ord == p
    requires Reduce(root, c, best, false).Ok? && IsDraft(Reduce(root, c, best, false).value)
    ensures ClosesInto(root, later, Reduce(root, c, best, false).value)
  {
    hide *;
    ClosesParts(root, path, c);
    SameMatch(path, later, o, p);
    var os := ClosedChain(root, a, o, now, path);
    var zs := ClosedChain(root, b, p, now, later);
    FinishedNodes(root, path, c, os);
    PathsOfChains(os, zs, path, later);
    ReducedNodesBacked(root, o, stock, c, best, false);
    RegularUnflagged(c.x);
    CachedIsDraft(root, o, stock, best);
    ReducedSame(c.x, best);
    ChainBacked(b, p, now, zs, Debit(stock, best), n);
    SameClosed(c.x, ReducedNodes(c.x, best, false), os, zs, Debit(stock, best));
    ReduceComputes(root, c, best);
    var f := FlowRecord(ReducedNodes(c.x, best, false), c.flowr);
    FlowrNotRead(root, f, FlowRecord(ClosedNodes(zs), Zeros(|zs|)));
    ClosesIf(root, later, Reduce(root, c, best, false).value);
  }

  lemma ClosesParts(root: RootFunction, path: Path, c: Tflow)
    requires IsRoot(root) && ClosesInto(root, path, c)
    ensures Matches(path.fin, path.debut) && Finish(root, path.debut, path.path, path.fin) == Ok(c)
  {
    hide Matches, Finish, IsDraft;
  }

  lemma ClosesIf(root: RootFunction, path: Path, c: Tflow)
    requires IsRoot(root) && IsDraft(c)
    requires Matches(path.fin, path.debut) && Finish(root, path.debut, path.path, path.fin) == Ok(c)
    ensures ClosesInto(root, path, c)
  {
    hide Matches, Finish, IsDraft;
  }

  lemma SameMatch(path: Path, later: Path, o: Order, p: Order)
    requires SamePath(path, later) && SameOrder(o, p)
    ensures Matches(path.fin, path.debut) <==> Matches(later.fin, later.debut)
    ensures Matches(o, o) <==> Matches(p, p)
  {}

  lemma FinishedNodes(root: RootFunction, path: Path, c: Tflow, os: seq<Order>)
    requires IsRoot(root) && Finish(root, path.debut, path.path, path.fin) == Ok(c)
    requires Regular(ClosedNodes(os)) && |ClosedNodes(os)| == |os|
    requires var f := FlowRecord(ClosedNodes(os), Zeros(|os|));
             && FlowcMaximum(root, f).Ok? && FlowcMaximum(root, f).value.flow.x == f.x
             && Finish(root, path.debut, path.path, path.fin) == Ok(FlowcMaximum(root, f).value.flow)
    ensures c.x == ClosedNodes(os) && Regular(c.x)
  {
    hide FlowcMaximum, Finish, Regular;
  }

  lemma PathsOfChains(os: seq<Order>, zs: seq<Order>, path: Path, later: Path)
    requires |os| >= 1 && |zs| >= 1 && path == PathOf(os) && later == PathOf(zs) && SamePath(path, later)
    ensures |os| == |zs| && SameNodes(ChainNodes(os), ChainNodes(zs))
  {}

  /** What a reduction computes. */
  lemma ReduceComputes(root: RootFunction, c: Tflow, best: Tflow)
    requires IsRoot(root) && |c.x| >= 1 && IsDraft(best) && AllCanGive(c.x, best)
    requires Reduce(root, c, best, false).Ok?
    ensures var m := FlowcMaximum(root, FlowRecord(ReducedNodes(c.x, best, false), c.flowr));
            m.Ok? && Reduce(root, c, best, false).value == m.value.flow
  {
    hide FlowcMaximum, ReducedNodes, AllCanGive;
  }

  lemma InBookUnique(book: seq<Row>, n: nat)
    requires ValidBook(book) && n < |book|
    ensures UniqueIds(book, book[n].ord) && PlainOrders(book, book[n].ord) && UniqueBook(book)
  {}

  lemma DebitedSame(book: seq<Row>, best: Tflow, n: nat)
    requires Affordable(book, best) && n < |book|
    ensures SameShape(book, DebitBook(book, best)) && SameOrder(book[n].ord, DebitBook(book, best)[n].ord)
  {
    hide Amount;
  }

  /** The table of the same order in the debited book. */
  lemma SearchedAgain(root: RootFunction, a: seq<Row>, b: seq<Row>, n: nat, now: int)
    returns (ps: seq<Path>, qs: seq<Path>)
    requires IsRoot(root) && ValidBook(a) && ValidBook(b) && SameShape(a, b) && n < |a| == |b|
    requires FcreateTmp(root, a, a[n].ord, now).Ok?
    ensures FcreateTmp(root, b, b[n].ord, now).Ok? && !Matches(a[n].ord, a[n].ord)
    ensures Close(root, ps) == FcreateTmp(root, a, a[n].ord, now) && RowsSound(a, a[n].ord, now, 1, ps)
    ensures Close(root, qs) == FcreateTmp(root, b, b[n].ord, now) && RowsSound(b, b[n].ord, now, 1, qs)
    ensures SamePaths(ps, qs)
  {
    var o, p := a[n].ord, b[n].ord;
    assert SameOrder(o, p);
    InBookUnique(a, n);
    InBookUnique(b, n);
    SearchReadsNoStock(a, b, o, p, now);
    hide *;
    FcreateTmpFailsIff(root, a, o, now);
    SameFails(o, p);
    FcreateTmpFailsIff(root, b, p, now);
    ps := FoundPaths(root, a, o, now);
    qs := FoundPaths(root, b, p, now);
  }

  lemma SameFails(o: Order, p: Order)
    requires SameOrder(o, p)
    ensures Matches(o, o) <==> Matches(p, p)
    ensures o.quaProv == o.quaRequ <==> p.quaProv == p.quaRequ
  {}

  /** A row that stays a draft is found by a new search. */
  lemma RowFound(root: RootFunction, a: seq<Row>, n: nat, now: int, stock: Stock, c: Tflow, best: Tflow)
    requires IsRoot(root) && ValidBook(a) && n < |a| && FcreateTmp(root, a, a[n].ord, now).Ok?
    requires c in FcreateTmp(root, a, a[n].ord, now).value
    requires Cached(root, a[n].ord, stock, c) && Cached(root, a[n].ord, stock, best)
    requires Affordable(a, best) && ValidBook(DebitBook(a, best)) && BookBacked(DebitBook(a, best), Debit(stock, best))
    requires Reduce(root, c, best, false).Ok? && IsDraft(Reduce(root, c, best, false).value)
    ensures var b := DebitBook(a, best);
            && |b| == |a| && FcreateTmp(root, b, b[n].ord, now).Ok?
            && Reduce(root, c, best, false).value in FcreateTmp(root, b, b[n].ord, now).value
  {
    hide *;
    CachedIsDraft(root, a[n].ord, stock, c);
    CachedIsDraft(root, a[n].ord, stock, best);
    var b, g := DebitBook(a, best), Reduce(root, c, best, false).value;
    DebitedSame(a, best, n);
    DebitedLength(a, best);
    var ps, qs := SearchedAgain(root, a, b, n, now);
    InBookUnique(a, n);
    InBookUnique(b, n);
    var i := CloseFrom(root, ps, c);
    PathsAt(a, b, a[n].ord, b[n].ord, now, ps, qs, i);
    ReducedIsFound(root, a, b, a[n].ord, b[n].ord, now, ps[i], qs[i], c, best, stock, n);
    ClosesParts(root, qs[i], g);
    CloseHolds(root, qs, i, g);
  }

  lemma DebitedLength(book: seq<Row>, best: Tflow)
    requires Affordable(book, best)
    ensures |DebitBook(book, best)| == |book|
  {}

  lemma PathsAt(a: seq<Row>, b: seq<Row>, o: Order, p: Order, now: int, ps: seq<Path>, qs: seq<Path>, i: nat)
    requires RowsSound(a, o, now, 1, ps) && RowsSound(b, p, now, 1, qs) && SamePaths(ps, qs) && i < |ps|
    ensures i < |qs| && SoundRow(a, o, now, 1, ps[i]) && SoundRow(b, p, now, 1, qs[i]) && SamePath(ps[i], qs[i])
  {
    hide SoundRow, SamePath;
  }

  /** The order of row n has been found in the book, with its table: every row of the
      table is found by a search. */
  ghost predicate Fresh(root: RootFunction, book: seq<Row>, n: nat, now: int, tmp: seq<Tflow>)
    requires IsRoot(root)
  {
    n < |book| && AllFound(root, book, book[n].ord, now, tmp)
  }

  /** A round leaves rows that a new search in the debited book would find. */
  lemma RoundKeepsFresh(root: RootFunction, book: seq<Row>, n: nat, now: int, stock: Stock,
                        tmp: seq<Tflow>, best: Tflow)
    requires IsRoot(root) && Fresh(root, book, n, now, tmp) && Coherent(root, book, book[n].ord, stock, tmp)
    requires AllExecutable(tmp) && Executable(best) && best in tmp
    ensures Affordable(book, best) && UpdateAll(root, tmp, best, false).Ok?
    ensures Fresh(root, DebitBook(book, best), n, now, Drafts(UpdateAll(root, tmp, best, false).value))
  {
    hide *;
    FreshParts(root, book, n, now, tmp);
    var o := book[n].ord;
    RoundOnMarket(root, Market(book, [], 1), o, stock, tmp, best);
    CoherentParts(root, book, o, stock, tmp);
    var b, us := DebitBook(book, best), UpdateAll(root, tmp, best, false).value;
    CoherentParts(root, b, o, Debit(stock, best), Drafts(us));
    DebitedLength(book, best);
    DebitedSame(book, best, n);
    var ps, qs := SearchedAgain(root, book, b, n, now);
    forall k | 0 <= k < |Drafts(us)|
      ensures Drafts(us)[k] in FcreateTmp(root, b, b[n].ord, now).value
    {
      DraftOfRow(us, k);
      var j :| 0 <= j < |us| && us[j] == Drafts(us)[k];
      UpdateAllAt(root, tmp, best, false, j);
      CachedAt(root, o, stock, tmp, j);
      TableAt(root, book, n, now, tmp, j);
      RowFound(root, book, n, now, stock, tmp[j], best);
    }
    FreshIf(root, b, n, now, Drafts(us));
  }

  lemma FreshParts(root: RootFunction, book: seq<Row>, n: nat, now: int, tmp: seq<Tflow>)
    requires IsRoot(root) && Fresh(root, book, n, now, tmp)
    ensures n < |book| && FcreateTmp(root, book, book[n].ord, now).Ok?
  {
    hide FcreateTmp;
  }

  lemma FreshIf(root: RootFunction, book: seq<Row>, n: nat, now: int, tmp: seq<Tflow>)
    requires IsRoot(root) && n < |book| && FcreateTmp(root, book, book[n].ord, now).Ok?
    requires forall k :: 0 <= k < |tmp| ==> tmp[k] in FcreateTmp(root, book, book[n].ord, now).value
    ensures Fresh(root, book, n, now, tmp)
  {
    hide FcreateTmp;
  }

  lemma TableAt(root: RootFunction, book: seq<Row>, n: nat, now: int, tmp: seq<Tflow>, j: nat)
    requires IsRoot(root) && Fresh(root, book, n, now, tmp) && j < |tmp|
    ensures n < |book| && FcreateTmp(root, book, book[n].ord, now).Ok?
    ensures tmp[j] in FcreateTmp(root, book, book[n].ord, now).value
  {
    hide FcreateTmp;
  }

  lemma CachedAt(root: RootFunction, o: Order, stock: Stock, tmp: seq<Tflow>, j: nat)
    requires IsRoot(root) && AllCached(root, o, stock, tmp) && j < |tmp|
    ensures Cached(root, o, stock, tmp[j])
  {
    hide Cached;
  }

  lemma DraftOfRow(us: seq<Tflow>, k: nat)
    requires k < |Drafts(us)|
    ensures IsDraft(Drafts(us)[k]) && exists j :: 0 <= j < |us| && us[j] == Drafts(us)[k]
  {
    hide Drafts, IsDraft;
    assert Drafts(us)[k] in us;
  }

  // ---------------------------------------------------------------------------
  // The whole loop

  /** At every head of the loop, each row of the table is what a new search in the book
      as it is then would find. */
  ghost predicate StaysFresh(root: RootFunction, m: Market, o: Order, n: nat, now: int, tmp: seq<Tflow>, moved: nat)
    requires IsRoot(root) && AllExecutable(tmp)
    decreases |tmp|
  {
    && Fresh(root, m.torder, n, now, tmp)
    && var best := Best(root, tmp);
       if tmp == [] || moved + |best.x| > MAXMVTPERTRANS then true
       else
         var m1, us := ExecuteCycle(m, o, best), UpdateAll(root, tmp, best, false);
         && m1.Ok? && us.Ok?
         && (RoundShrinks(root, tmp, best, false);
             StaysFresh(root, m1.value, o, n, now, Drafts(us.value), moved + |best.x|))
  }

  lemma CoherentSame(root: RootFunction, book: seq<Row>, o: Order, p: Order, stock: Stock, tmp: seq<Tflow>)
    requires IsRoot(root) && Coherent(root, book, o, stock, tmp) && SameOrder(o, p)
    ensures Coherent(root, book, p, stock, tmp)
  {
    hide Recorded, ValidBook, InTheBook, Backed, BookBacked;
    forall k | 0 <= k < |tmp|
      ensures Cached(root, p, stock, tmp[k])
    {
      assert Cached(root, o, stock, tmp[k]);
    }
  }

  lemma SameThrough(o: Order, p: Order, q: Order)
    requires SameOrder(o, p) && SameOrder(p, q)
    ensures SameOrder(o, q) && SameOrder(p, o)
  {}

  /** The loop on a book that agrees with a fresh table keeps the table fresh. */
  lemma {:induction false} LoopStaysFresh(root: RootFunction, m: Market, o: Order, n: nat, now: int, stock: Stock,
                                          tmp: seq<Tflow>, moved: nat)
    requires IsRoot(root) && Fresh(root, m.torder, n, now, tmp) && Coherent(root, m.torder, o, stock, tmp)
    requires AllExecutable(tmp) && n < |m.torder| && SameOrder(o, m.torder[n].ord)
    ensures StaysFresh(root, m, o, n, now, tmp, moved)
    decreases |tmp|
  {
    hide *;
    var best := Best(root, tmp);
    if tmp != [] && moved + |best.x| <= MAXMVTPERTRANS {
      BestIsDraft(root, tmp);
      var cur := m.torder[n].ord;
      CoherentSame(root, m.torder, o, cur, stock, tmp);
      RoundKeepsFresh(root, m.torder, n, now, stock, tmp, best);
      RoundOnMarket(root, m, o, stock, tmp, best);
      RoundShrinks(root, tmp, best, false);
      DebitedSame(m.torder, best, n);
      DebitedLength(m.torder, best);
      var b, ds := DebitBook(m.torder, best), Drafts(UpdateAll(root, tmp, best, false).value);
      SameThrough(o, cur, b[n].ord);
      var m1 := ExecuteCycle(m, o, best).value;
      LoopStaysFresh(root, m1, o, n, now, Debit(stock, best), ds, moved + |best.x|);
      StaysFreshTurn(root, m, o, n, now, tmp, moved);
    } else {
      StaysFreshEnd(root, m, o, n, now, tmp, moved);
    }
  }

  lemma StaysFreshTurn(root: RootFunction, m: Market, o: Order, n: nat, now: int, tmp: seq<Tflow>, moved: nat)
    requires IsRoot(root) && AllExecutable(tmp) && Fresh(root, m.torder, n, now, tmp) && tmp != []
    requires IsDraft(Best(root, tmp)) && Executable(Best(root, tmp))
    requires ExecuteCycle(m, o, Best(root, tmp)).Ok? && UpdateAll(root, tmp, Best(root, tmp), false).Ok?
    requires var ds := Drafts(UpdateAll(root, tmp, Best(root, tmp), false).value);
             && |ds| < |tmp| && AllExecutable(ds)
             && StaysFresh(root, ExecuteCycle(m, o, Best(root, tmp)).value, o, n, now, ds,
                           moved + |Best(root, tmp).x|)
    ensures StaysFresh(root, m, o, n, now, tmp, moved)
  {
    hide Fresh, Best, AllExecutable, Executable, ExecuteCycle, UpdateAll, Drafts, IsDraft, IsRoot;
  }

  lemma StaysFreshEnd(root: RootFunction, m: Market, o: Order, n: nat, now: int, tmp: seq<Tflow>, moved: nat)
    requires IsRoot(root) && AllExecutable(tmp) && Fresh(root, m.torder, n, now, tmp)
    requires tmp == [] || moved + |Best(root, tmp).x| > MAXMVTPERTRANS
    ensures StaysFresh(root, m, o, n, now, tmp, moved)
  {
    hide Fresh, Best, AllExecutable, ExecuteCycle, UpdateAll, Drafts, IsRoot;
  }

  /** The insertion of an accepted order searches once. At every head of its loop each
      row of the table is what a new search would find, at the same time, in the book
      as the cycles executed have left it. */
  lemma InsertionStaysFresh(root: RootFunction, m: Market, r: Row, now: int)
    requires IsRoot(root) && ValidBook(m.torder) && NewOrder(m.torder, r.ord) && Accepted(r.ord)
    ensures FcreateTmp(root, m.torder + [r], r.ord, now).Ok?
    ensures AllExecutable(FcreateTmp(root, m.torder + [r], r.ord, now).value)
    ensures StaysFresh(root, m.(torder := m.torder + [r]), r.ord, |m.torder|, now,
                       FcreateTmp(root, m.torder + [r], r.ord, now).value, 0)
  {
    hide *;
    var b := m.torder + [r];
    NewTable(root, m.torder, r, now);
    NewTableCoherent(root, m.torder, r, now);
    NewTableExecutable(root, m.torder, r, now);
    var tmp := FcreateTmp(root, b, r.ord, now).value;
    assert b[|m.torder|] == r;
    FreshIf(root, b, |m.torder|, now, tmp);
    SameItself(r.ord);
    LoopStaysFresh(root, m.(torder := b), r.ord, |m.torder|, now, StockOf(b), tmp, 0);
  }

  lemma SameItself(o: Order)
    ensures SameOrder(o, o)
  {}
}
