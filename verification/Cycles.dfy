/** What the search records: the cycles through the new order that are drafts. */
module Cycles {
  import opened Numeric
  import opened FlowTypes
  import opened Orders
  import opened Gains
  import opened Kernel
  import opened Guarantees
  import opened Yflow
  import opened Search
  import opened Matching

  /** The type of an order submitted by a client. */
  predicate PlainKind(kind: nat) {
    kind == ORDER_LIMIT || kind == ORDER_BEST
  }

  predicate PlainNode(b: Tfl) {
    PlainKind(b.kind) && Priced(b) && b.proba > 0.0 && 0 <= b.qtt <= INT64_MAX_DOUBLE
  }

  /** The nodes of a cycle of submitted orders; a stock may be empty. */
  predicate Regular(x: seq<Tfl>) {
    2 <= |x| <= FLOW_MAX_DIM && DistinctOids(x) && forall i :: 0 <= i < |x| ==> PlainNode(x[i])
  }

  lemma RegularUnflagged(x: seq<Tfl>)
    requires Regular(x)
    ensures !IgnoresQtt(x) && !IgnoresOmega(x) && NonNegative(x)
  {
    assert PlainNode(x[|x| - 1]);
  }

  /** The kernel raises nothing on such a cycle and leaves its nodes alone. */
  lemma RegularComputes(root: RootFunction, f: Tflow)
    requires IsRoot(root) && Regular(f.x)
    ensures FlowcMaximum(root, f).Ok? && FlowcMaximum(root, f).value.flow.x == f.x
  {
    RegularUnflagged(f.x);
    if SomeStockEmpty(f.x) {
      EmptyStockDrops(root, f);
    } else {
      assert Plain(f.x) by {
        forall i | 0 <= i < |f.x|
          ensures Priced(f.x[i]) && f.x[i].proba > 0.0 && 0 < f.x[i].qtt <= INT64_MAX_DOUBLE
        {
          assert PlainNode(f.x[i]);
        }
      }
      PlainComputes(root, f);
    }
  }

  /** The flow found before does not count. */
  lemma FlowrNotRead(root: RootFunction, f: Tflow, g: Tflow)
    requires IsRoot(root) && |f.x| >= 2 && f.x == g.x
    ensures FlowcMaximum(root, f) == FlowcMaximum(root, g)
  {
    hide FlowMaximum;
  }

  /** The flow recorded is the one its stocks give, and it can be executed. */
  ghost predicate Recorded(root: RootFunction, c: Tflow)
    requires IsRoot(root)
  {
    Regular(c.x) && IsDraft(c) && FlowcMaximum(root, c) == Ok(Computed(Draft, c))
  }

  lemma ComputedIsRecorded(root: RootFunction, f: Tflow)
    requires IsRoot(root) && Regular(f.x) && FlowcMaximum(root, f).Ok?
    requires IsDraft(FlowcMaximum(root, f).value.flow)
    ensures Recorded(root, FlowcMaximum(root, f).value.flow)
  {
    var g := FlowcMaximum(root, f).value;
    RegularComputes(root, f);
    DraftStatus(root, f, g);
    FlowrNotRead(root, f, g.flow);
  }

  // ---------------------------------------------------------------------------
  // Closing the paths

  /** The nodes of a chain once it is closed. */
  function ClosedNodes(os: seq<Order>): (x: seq<Tfl>)
    ensures |x| == |os| && forall i :: 0 <= i < |os| ==> x[i] == ToFl(os[i]).(proba := 1.0)
  {
    seq(|os|, i requires 0 <= i < |os| => ToFl(os[i]).(proba := 1.0))
  }

  /** The orders of the book, and the new one, are submitted orders. */
  ghost predicate PlainOrders(book: seq<Row>, o: Order) {
    PlainKind(o.kind) && forall i :: 0 <= i < |book| ==> PlainKind(book[i].ord.kind)
  }

  /** c is the draft of the cycle of the orders os. */
  ghost predicate IsCycleOf(root: RootFunction, book: seq<Row>, o: Order, now: int, c: Tflow, os: seq<Order>)
    requires IsRoot(root)
  {
    && Chain(book, o, now, os)
    && 2 <= |os| <= 64
    && Matches(o, os[0])
    && c.x == ClosedNodes(os)
    && Recorded(root, c)
  }

  lemma ClosedRegular(book: seq<Row>, o: Order, now: int, os: seq<Order>)
    requires Chain(book, o, now, os) && 2 <= |os| <= MAXCYCLE && PlainOrders(book, o)
    ensures Regular(ClosedNodes(os))
  {
    forall i | 0 <= i < |os|
      ensures PlainKind(os[i].kind)
    {
      if i < |os| - 1 { assert InBook(book, now, os[i]); }
    }
  }

  /** Finishing the path of a chain that closes computes its cycle. */
  lemma FinishChain(root: RootFunction, book: seq<Row>, o: Order, now: int, os: seq<Order>)
    requires IsRoot(root) && Chain(book, o, now, os) && 2 <= |os| <= MAXCYCLE && PlainOrders(book, o)
    requires Matches(o, os[0])
    ensures var f := FlowRecord(ClosedNodes(os), Zeros(|os|));
            && FlowcMaximum(root, f).Ok?
            && Finish(root, os[0], PathOf(os).path, o) == Ok(FlowcMaximum(root, f).value.flow)
  {
    ClosedRegular(book, o, now, os);
    var f := FlowRecord(ClosedNodes(os), Zeros(|os|));
    RegularComputes(root, f);
    var p := PathOf(os).path;
    var n := |os|;
    assert p.x[n - 1 := p.x[n - 1].(proba := 1.0)] == ClosedNodes(os);
    hide FlowcMaximum, Regular;
  }

  ghost predicate SoundCycle(root: RootFunction, book: seq<Row>, o: Order, now: int, c: Tflow)
    requires IsRoot(root)
  {
    exists os :: IsCycleOf(root, book, o, now, c, os)
  }

  /** When the path of a chain closes into a draft, the draft is its cycle. */
  lemma FinishSound(root: RootFunction, book: seq<Row>, o: Order, now: int, os: seq<Order>)
    requires IsRoot(root) && Chain(book, o, now, os) && 2 <= |os| <= MAXCYCLE && PlainOrders(book, o)
    requires Matches(o, os[0])
    ensures Finish(root, os[0], PathOf(os).path, o).Ok?
    ensures var c := Finish(root, os[0], PathOf(os).path, o).value;
            IsDraft(c) ==> IsCycleOf(root, book, o, now, c, os)
  {
    hide FlowcMaximum, Finish, Regular, Chain;
    var f := FlowRecord(ClosedNodes(os), Zeros(|os|));
    FinishChain(root, book, o, now, os);
    ClosedRegular(book, o, now, os);
    RegularComputes(root, f);
    if IsDraft(FlowcMaximum(root, f).value.flow) {
      ComputedIsRecorded(root, f);
    }
  }

  /** The draft of a cycle is what finishing its path gives. */
  lemma FinishComplete(root: RootFunction, book: seq<Row>, o: Order, now: int, c: Tflow, os: seq<Order>)
    requires IsRoot(root) && PlainOrders(book, o) && IsCycleOf(root, book, o, now, c, os)
    ensures Finish(root, os[0], PathOf(os).path, o) == Ok(c)
  {
    hide FlowcMaximum, Finish, Regular, Chain, PlainOrders;
    FinishChain(root, book, o, now, os);
    FlowrNotRead(root, FlowRecord(ClosedNodes(os), Zeros(|os|)), c);
  }

  // ---------------------------------------------------------------------------
  // The temporary table

  ghost predicate TmpSound(root: RootFunction, book: seq<Row>, o: Order, now: int, tmp: seq<Tflow>)
    requires IsRoot(root)
  {
    forall k :: 0 <= k < |tmp| ==> SoundCycle(root, book, o, now, tmp[k])
  }

  /** A path fetched that closes has at least two orders: the new order does not
      match itself. */
  lemma ClosingRow(root: RootFunction, book: seq<Row>, o: Order, now: int, p: Path) returns (os: seq<Order>)
    requires IsRoot(root) && SoundRow(book, o, now, 1, p) && Matches(p.fin, p.debut) && !Matches(o, o)
    ensures IsPathOf(book, o, now, |os|, p, os) && 2 <= |os| <= MAXCYCLE && Matches(o, os[0])
    ensures p.fin == o && p.debut == os[0]
  {
    os :| IsPathOf(book, o, now, |os|, p, os) && 1 <= |os| <= MAXCYCLE;
  }

  lemma {:induction false} CloseSound(root: RootFunction, book: seq<Row>, o: Order, now: int, ps: seq<Path>)
    requires IsRoot(root) && PlainOrders(book, o) && !Matches(o, o) && RowsSound(book, o, now, 1, ps)
    ensures Close(root, ps).Ok? && TmpSound(root, book, o, now, Close(root, ps).value)
  {
    hide Chain, PathOf, Finish, IsRoot, PlainOrders, IsCycleOf, Matches;
    if |ps| > 0 {
      var init, p := ps[..|ps| - 1], ps[|ps| - 1];
      assert SoundRow(book, o, now, 1, p);
      assert forall k :: 0 <= k < |init| ==> init[k] == ps[k];
      CloseSound(root, book, o, now, init);
      if Matches(p.fin, p.debut) {
        var os := ClosingRow(root, book, o, now, p);
        FinishRow(root, book, o, now, p, os);
      }
    }
  }

  lemma FinishRow(root: RootFunction, book: seq<Row>, o: Order, now: int, p: Path, os: seq<Order>)
    requires IsRoot(root) && PlainOrders(book, o)
    requires IsPathOf(book, o, now, |os|, p, os) && 2 <= |os| <= MAXCYCLE && Matches(o, os[0])
    ensures Finish(root, p.debut, p.path, p.fin).Ok?
    ensures var c := Finish(root, p.debut, p.path, p.fin).value;
            IsDraft(c) ==> SoundCycle(root, book, o, now, c)
  {
    hide Finish, IsCycleOf;
    FinishSound(root, book, o, now, os);
  }

  lemma {:induction false} CloseHolds(root: RootFunction, ps: seq<Path>, j: nat, c: Tflow)
    requires IsRoot(root) && j < |ps| && Close(root, ps).Ok? && IsDraft(c)
    requires Matches(ps[j].fin, ps[j].debut) && Finish(root, ps[j].debut, ps[j].path, ps[j].fin) == Ok(c)
    ensures c in Close(root, ps).value
  {
    if j < |ps| - 1 { CloseHolds(root, ps[..|ps| - 1], j, c); }
  }

  lemma {:induction false} CloseFails(root: RootFunction, ps: seq<Path>, n: nat)
    requires IsRoot(root) && 1 <= n <= |ps| && Close(root, ps[..n]).Err?
    ensures Close(root, ps).Err?
    decreases |ps|
  {
    if n < |ps| {
      assert ps[..|ps| - 1][..n] == ps[..n];
      CloseFails(root, ps[..|ps| - 1], n);
    } else {
      assert ps[..n] == ps;
    }
  }

  /** The search raises an error exactly when the new order asks for what it
      provides: by the same text, or because it matches itself. */
  lemma FcreateTmpFailsIff(root: RootFunction, book: seq<Row>, o: Order, now: int)
    requires IsRoot(root) && UniqueIds(book, o) && PlainOrders(book, o)
    ensures FcreateTmp(root, book, o, now).Err? <==> o.quaProv == o.quaRequ || Matches(o, o)
  {
    SearchIsChains(book, o, now);
    var rows := SearchFrom(book, FirstLevel(o), 1, now).value;
    var ps := Limited(rows);
    if Matches(o, o) {
      SearchStarts(book, FirstLevel(o), 1, now);
      assert ps[..1] == FirstLevel(o);
      assert Close(root, ps[..1][..0]) == Ok([]);
      CloseFails(root, ps, 1);
    } else {
      hide RowsComplete, SearchFrom, Matches;
      assert RowsSound(book, o, now, 1, ps);
      CloseSound(root, book, o, now, ps);
    }
  }

  lemma SearchStarts(book: seq<Row>, level: seq<Path>, depth: nat, now: int)
    requires depth <= MAXCYCLE && SearchFrom(book, level, depth, now).Ok?
    ensures level <= SearchFrom(book, level, depth, now).value
  {}

  /** Every flow recorded is the draft of a cycle through the new order: orders of
      the book that each give to the next, with distinct stocks, at most 64
      of them, the last being the new order. */
  lemma FcreateTmpSound(root: RootFunction, book: seq<Row>, o: Order, now: int)
    requires IsRoot(root) && UniqueIds(book, o) && PlainOrders(book, o)
    requires FcreateTmp(root, book, o, now).Ok?
    ensures TmpSound(root, book, o, now, FcreateTmp(root, book, o, now).value)
  {
    FcreateTmpFailsIff(root, book, o, now);
    SearchIsChains(book, o, now);
    var rows := SearchFrom(book, FirstLevel(o), 1, now).value;
    hide RowsComplete, SearchFrom, Matches, Close, UniqueIds, PlainOrders, TmpSound;
    assert RowsSound(book, o, now, 1, Limited(rows));
    CloseSound(root, book, o, now, Limited(rows));
  }

  /** When the limit of the query is not hit, every such draft is recorded. */
  lemma FcreateTmpComplete(root: RootFunction, book: seq<Row>, o: Order, now: int, c: Tflow)
    requires IsRoot(root) && UniqueIds(book, o) && PlainOrders(book, o)
    requires FcreateTmp(root, book, o, now).Ok?
    requires SearchFrom(book, FirstLevel(o), 1, now).Ok?
    requires |SearchFrom(book, FirstLevel(o), 1, now).value| <= 1024
    ensures SoundCycle(root, book, o, now, c) <==> c in FcreateTmp(root, book, o, now).value
  {
    hide *;
    FcreateTmpSound(root, book, o, now);
    InTmpIsSound(root, book, o, now, c);
    ClosesIntoTmp(root, book, o, now, c);
  }

  lemma InTmpIsSound(root: RootFunction, book: seq<Row>, o: Order, now: int, c: Tflow)
    requires IsRoot(root) && FcreateTmp(root, book, o, now).Ok?
    requires TmpSound(root, book, o, now, FcreateTmp(root, book, o, now).value)
    ensures c in FcreateTmp(root, book, o, now).value ==> SoundCycle(root, book, o, now, c)
  {
    hide FcreateTmp, SoundCycle;
  }

  lemma ClosesIntoTmp(root: RootFunction, book: seq<Row>, o: Order, now: int, c: Tflow)
    requires IsRoot(root) && UniqueIds(book, o) && PlainOrders(book, o)
    requires FcreateTmp(root, book, o, now).Ok? && SearchFrom(book, FirstLevel(o), 1, now).Ok?
    requires |SearchFrom(book, FirstLevel(o), 1, now).value| <= 1024
    ensures SoundCycle(root, book, o, now, c) ==> c in FcreateTmp(root, book, o, now).value
  {
    hide RowsSound, SearchFrom, Close, UniqueIds, PlainOrders, Chain, Finish, PathOf, IsCycleOf;
    if os :| IsCycleOf(root, book, o, now, c, os) {
      SearchIsChains(book, o, now);
      var rows := SearchFrom(book, FirstLevel(o), 1, now).value;
      CycleHasChain(root, book, o, now, c, os);
      FinishComplete(root, book, o, now, c, os);
      var j :| 0 <= j < |rows| && rows[j] == PathOf(os);
      CycleCloses(root, book, o, now, c, os, rows, j);
    }
  }

  lemma CycleHasChain(root: RootFunction, book: seq<Row>, o: Order, now: int, c: Tflow, os: seq<Order>)
    requires IsRoot(root) && IsCycleOf(root, book, o, now, c, os)
    ensures Chain(book, o, now, os) && 2 <= |os| <= MAXCYCLE
  {}

  lemma CycleCloses(root: RootFunction, book: seq<Row>, o: Order, now: int, c: Tflow, os: seq<Order>,
                    rows: seq<Path>, j: nat)
    requires IsRoot(root) && IsCycleOf(root, book, o, now, c, os) && Close(root, rows).Ok?
    requires Finish(root, os[0], PathOf(os).path, o) == Ok(c)
    requires j < |rows| && rows[j] == PathOf(os)
    ensures c in Close(root, rows).value
  {
    hide Finish, Close;
    CloseHolds(root, rows, j, c);
  }

  /** When the limit of the query is hit, the drafts of the shorter cycles are recorded: all
      those of at most k orders, if at most 1024 paths have no more orders. */
  lemma ShortCyclesRecorded(root: RootFunction, book: seq<Row>, o: Order, now: int, k: nat, c: Tflow, os: seq<Order>)
    requires IsRoot(root) && UniqueIds(book, o) && PlainOrders(book, o)
    requires FcreateTmp(root, book, o, now).Ok? && SearchFrom(book, FirstLevel(o), 1, now).Ok?
    requires CountShort(SearchFrom(book, FirstLevel(o), 1, now).value, k) <= 1024
    requires IsCycleOf(root, book, o, now, c, os) && |os| <= k
    ensures c in FcreateTmp(root, book, o, now).value
  {
    hide *;
    CycleHasChain(root, book, o, now, c, os);
    FinishComplete(root, book, o, now, c, os);
    ShortChainsKept(book, o, now, k, os);
    var rows := Limited(SearchFrom(book, FirstLevel(o), 1, now).value);
    var j :| 0 <= j < |rows| && rows[j] == PathOf(os);
    TableIsClosed(root, book, o, now);
    CycleCloses(root, book, o, now, c, os, rows, j);
  }

  lemma TableIsClosed(root: RootFunction, book: seq<Row>, o: Order, now: int)
    requires IsRoot(root) && FcreateTmp(root, book, o, now).Ok? && SearchFrom(book, FirstLevel(o), 1, now).Ok?
    ensures Close(root, Limited(SearchFrom(book, FirstLevel(o), 1, now).value)) == FcreateTmp(root, book, o, now)
  {
    hide SearchFrom, Close, Limited, FirstLevel;
  }

  lemma {:induction false} FewerCycles(root: RootFunction, ps: seq<Path>)
    requires IsRoot(root) && Close(root, ps).Ok?
    ensures |Close(root, ps).value| <= |ps|
  {
    hide Finish;
    if |ps| > 0 { FewerCycles(root, ps[..|ps| - 1]); }
  }

  /** No more than 1024 cycles are recorded, and none has more than 64 orders. */
  lemma TableIsSmall(root: RootFunction, book: seq<Row>, o: Order, now: int, k: nat)
    requires IsRoot(root) && UniqueIds(book, o) && PlainOrders(book, o)
    requires FcreateTmp(root, book, o, now).Ok? && k < |FcreateTmp(root, book, o, now).value|
    ensures |FcreateTmp(root, book, o, now).value| <= 1024
    ensures 2 <= |FcreateTmp(root, book, o, now).value[k].x| <= 64
  {
    FcreateTmpSound(root, book, o, now);
    hide SearchFrom, Close, Matches, Recorded, Chain, PlainOrders, UniqueIds;
    var ps := SearchFrom(book, FirstLevel(o), 1, now).value;
    FewerCycles(root, Limited(ps));
    var c := FcreateTmp(root, book, o, now).value[k];
    assert SoundCycle(root, book, o, now, c);
    var os :| IsCycleOf(root, book, o, now, c, os);
  }

  /** The nodes of a cycle found are its orders, with their owners and their stocks; the
      probability of each is one. */
  lemma NodesAreOrders(root: RootFunction, book: seq<Row>, o: Order, now: int, c: Tflow, os: seq<Order>)
    requires IsRoot(root) && IsCycleOf(root, book, o, now, c, os)
    ensures |c.x| == |os| && os[|os| - 1] == o
    ensures forall i :: 0 <= i < |os| ==>
              c.x[i] == Tfl(os[i].kind, os[i].id, os[i].oid, os[i].own, os[i].qttRequ, os[i].qttProv, os[i].qtt, 1.0)
  {
    hide Recorded, Matches;
  }

  // ---------------------------------------------------------------------------
  // The book with and without the new order

  /** The stock of the new order is in the path. */
  ghost predicate HasStock(o: Order, level: seq<Path>) {
    forall k :: 0 <= k < |level| ==> ContainsOid(o.oid, level[k].path.x)
  }

  lemma {:induction false} NextLevelWithout(book: seq<Row>, r: Row, level: seq<Path>, now: int)
    requires HasStock(r.ord, level)
    ensures NextLevel(book + [r], level, now) == NextLevel(book, level, now)
  {
    if |level| > 0 {
      var init, y := level[..|level| - 1], level[|level| - 1];
      assert forall k :: 0 <= k < |init| ==> init[k] == level[k];
      NextLevelWithout(book, r, init, now);
      assert (book + [r])[..|book|] == book;
      assert ContainsOid(r.ord.oid, y.path.x);
      assert JoinRows(book + [r], y, now) == JoinRows(book, y, now);
    }
  }

  lemma LevelHasStock(book: seq<Row>, o: Order, now: int, depth: nat, level: seq<Path>)
    requires LevelSound(book, o, now, depth, level)
    ensures HasStock(o, level)
  {
    forall k | 0 <= k < |level|
      ensures ContainsOid(o.oid, level[k].path.x)
    {
      assert SoundPath(book, o, now, depth, level[k]);
      var os :| IsPathOf(book, o, now, depth, level[k], os);
      assert level[k].path.x[|os| - 1].oid == o.oid;
    }
  }

  lemma {:induction false} SearchWithout(book: seq<Row>, r: Row, level: seq<Path>, depth: nat, now: int)
    requires depth <= MAXCYCLE && UniqueIds(book, r.ord) && LevelSound(book, r.ord, now, depth, level)
    ensures SearchFrom(book + [r], level, depth, now) == SearchFrom(book, level, depth, now)
    decreases MAXCYCLE - depth
  {
    hide NextLevel, LevelSound, UniqueIds;
    if depth < MAXCYCLE {
      LevelHasStock(book, r.ord, now, depth, level);
      NextLevelWithout(book, r, level, now);
      NextLevelSound(book, r.ord, now, depth, level);
      SearchWithout(book, r, NextLevel(book, level, now).value, depth + 1, now);
    }
  }

  /** The cycles found do not depend on whether the new order is in the book. */
  lemma SameCycles(root: RootFunction, book: seq<Row>, r: Row, now: int)
    requires IsRoot(root) && UniqueIds(book, r.ord)
    ensures FcreateTmp(root, book + [r], r.ord, now) == FcreateTmp(root, book, r.ord, now)
  {
    FirstLevelHolds(book, r.ord, now);
    SearchWithout(book, r, FirstLevel(r.ord), 1, now);
    hide SearchFrom, Close;
  }
}
