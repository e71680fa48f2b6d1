/** The search of the cycles through a new order: paths are grown backwards from
    it, level by level, and those that close into a draft are kept. */
module Search {
  import opened Numeric
  import opened FlowTypes
  import opened Orders
  import opened Kernel
  import opened Yflow

  const MAXPATHFETCHED: nat := 1024

  /** A row of the order book. */
  datatype Row = Row(usr: string, owner: string, ord: Order, deadline: Option<int>)

  // ---------------------------------------------------------------------------
  // Growing a flow

  predicate ContainsOid(oid: int, x: seq<Tfl>) {
    exists i :: 0 <= i < |x| && x[i].oid == oid
  }

  /** The first node, from i on, with the stock or the id of the new one. */
  function Clash(o: Tfl, x: seq<Tfl>, i: nat): Option<Tfl>
    requires i <= |x|
    decreases |x| - i
  {
    if i == |x| then None
    else if x[i].oid == o.oid || x[i].id == o.id then Some(x[i])
    else Clash(o, x, i + 1)
  }

  /** The flow extended by a node at its begin, unless it has that stock already. */
  function YflowGet(o: Tfl, f: Tflow): Result<Tflow> {
    if |f.x| > FLOW_MAX_DIM - 1 then Err(MaxDimReached)
    else
      match Clash(o, f.x, 0)
      case None => Ok(FlowRecord([o] + f.x, [0] + f.flowr))
      case Some(b) => if b.oid == o.oid then Ok(f) else Err(SameOrderOtherOid)
  }

  function WithFirst(f: Tflow, proba: real): Tflow
    requires |f.x| >= 1
  {
    FlowRecord(f.x[0 := f.x[0].(proba := proba)], f.flowr[0 := 0])
  }

  function YflowInit(o: Order): Tflow {
    FlowRecord([ToFl(o).(proba := -1.0)], [0])
  }

  function GrowBackward(next: Order, debut: Order, f: Tflow): Result<Tflow> {
    if |f.x| == 0 then Err(FlowEmpty)
    else if f.x[0].id != debut.id then Err(NotTheBegin)
    else if !Matches(next, debut) then Err(NotMatching)
    else
      var g :- YflowGet(ToFl(next), f);
      Ok(if |g.x| == 0 then g else WithFirst(g, 1.0))
  }

  /** Closes the path into a cycle and computes its flow. */
  function Finish(root: RootFunction, debut: Order, f: Tflow, fin: Order): Result<Tflow>
    requires IsRoot(root)
  {
    var n := |f.x|;
    if n < 2 then Err(LessThanTwoPartners)
    else if f.x[n - 1].id != fin.id then Err(NotTheEnd)
    else if f.x[0].id != debut.id then Err(NotTheBegin)
    else if !Matches(fin, debut) then Err(NotMatching)
    else
      var m :- FlowcMaximum(root, FlowRecord(f.x[n - 1 := f.x[n - 1].(proba := 1.0)], f.flowr));
      Ok(m.flow)
  }

  // ---------------------------------------------------------------------------
  // The recursive query

  datatype Path = Path(debut: Order, path: Tflow, fin: Order, depth: nat, cycle: bool)

  predicate Live(r: Row, now: int) {
    r.deadline.None? || r.deadline.value > now
  }

  /** The join condition of a row of the book with a path. */
  predicate Joins(r: Row, y: Path, now: int) {
    && Matches(r.ord, y.debut)
    && Live(r, now)
    && y.depth < MAXCYCLE
    && !y.cycle
    && !ContainsOid(r.ord.oid, y.path.x)
  }

  /** The path y grown by each row of the book that joins it. */
  function JoinRows(book: seq<Row>, y: Path, now: int): Result<seq<Path>> {
    if |book| == 0 then Ok([])
    else
      var ps :- JoinRows(book[..|book| - 1], y, now);
      var r := book[|book| - 1];
      if !Joins(r, y, now) then Ok(ps)
      else
        var f :- GrowBackward(r.ord, y.debut, y.path);
        Ok(ps + [Path(r.ord, f, y.fin, y.depth + 1, ContainsOid(r.ord.oid, y.path.x))])
  }

  function NextLevel(book: seq<Row>, level: seq<Path>, now: int): Result<seq<Path>> {
    if |level| == 0 then Ok([])
    else
      var ps :- NextLevel(book, level[..|level| - 1], now);
      var qs :- JoinRows(book, level[|level| - 1], now);
      Ok(ps + qs)
  }

  /** The level and all those grown from it; no path is deeper than MAXCYCLE. */
  function SearchFrom(book: seq<Row>, level: seq<Path>, depth: nat, now: int): Result<seq<Path>>
    requires depth <= MAXCYCLE
    decreases MAXCYCLE - depth
  {
    if depth == MAXCYCLE then Ok(level)
    else
      var next :- NextLevel(book, level, now);
      var deeper :- SearchFrom(book, next, depth + 1, now);
      Ok(level + deeper)
  }

  function FirstLevel(o: Order): seq<Path> {
    [Path(o, YflowInit(o), o, 1, false)]
  }

  /** The paths that close into a draft, each with its flow. */
  function Close(root: RootFunction, ps: seq<Path>): Result<seq<Tflow>>
    requires IsRoot(root)
  {
    if |ps| == 0 then Ok([])
    else
      var cs :- Close(root, ps[..|ps| - 1]);
      var p := ps[|ps| - 1];
      if !Matches(p.fin, p.debut) then Ok(cs)
      else
        var c :- Finish(root, p.debut, p.path, p.fin);
        Ok(if IsDraft(c) then cs + [c] else cs)
  }

  /** The first rows fetched, at most 1024 of them. */
  function Limited(ps: seq<Path>): (r: seq<Path>)
    ensures r <= ps && |r| == if |ps| < 1024 then |ps| else 1024
  {
    if |ps| <= MAXPATHFETCHED then ps else ps[..MAXPATHFETCHED]
  }

  /** The temporary table of the cycles through the order o. */
  function FcreateTmp(root: RootFunction, book: seq<Row>, o: Order, now: int): Result<seq<Tflow>>
    requires IsRoot(root)
  {
    if o.quaProv == o.quaRequ then Err(SameQualities)
    else
      var ps :- SearchFrom(book, FirstLevel(o), 1, now);
      Close(root, Limited(ps))
  }

  // ---------------------------------------------------------------------------
  // Chains of orders

  /** Orders that each give to the next one, the last being o and the others live
      orders of the book, no stock appearing twice. */
  ghost predicate Chain(book: seq<Row>, o: Order, now: int, os: seq<Order>) {
    && |os| >= 1
    && os[|os| - 1] == o
    && (forall i :: 0 <= i < |os| - 1 ==> InBook(book, now, os[i]) && Matches(os[i], os[i + 1]))
    && (forall i, j :: 0 <= i < j < |os| ==> os[i].oid != os[j].oid)
  }

  /** The order is a row of the book without a deadline, or before it. */
  ghost predicate InBook(book: seq<Row>, now: int, o: Order) {
    exists k :: 0 <= k < |book| && book[k].ord == o && (book[k].deadline == None || now < book[k].deadline.value)
  }

  /** No order id appears twice, in the book and for o. */
  ghost predicate UniqueIds(book: seq<Row>, o: Order) {
    && (forall i, j :: 0 <= i < j < |book| ==> book[i].ord.id != book[j].ord.id)
    && (forall i :: 0 <= i < |book| && book[i].ord.id == o.id ==> book[i].ord.oid == o.oid)
  }

  /** The flow of a chain before it is closed. */
  function ChainNodes(os: seq<Order>): (x: seq<Tfl>)
    ensures |x| == |os|
    ensures forall i :: 0 <= i < |os| ==> x[i] == ToFl(os[i]).(proba := if i == |os| - 1 then -1.0 else 1.0)
  {
    seq(|os|, i requires 0 <= i < |os| => ToFl(os[i]).(proba := if i == |os| - 1 then -1.0 else 1.0))
  }

  function Zeros(n: nat): (s: seq<int>)
    ensures |s| == n && forall i :: 0 <= i < n ==> s[i] == 0
  {
    seq(n, i => 0)
  }

  function PathOf(os: seq<Order>): Path
    requires |os| >= 1
  {
    Path(os[0], FlowRecord(ChainNodes(os), Zeros(|os|)), os[|os| - 1], |os|, false)
  }

  ghost predicate IsPathOf(book: seq<Row>, o: Order, now: int, depth: nat, p: Path, os: seq<Order>) {
    Chain(book, o, now, os) && |os| == depth && p == PathOf(os)
  }

  /** The rows of a level are the paths of the chains of its depth. */
  ghost predicate LevelSound(book: seq<Row>, o: Order, now: int, depth: nat, level: seq<Path>) {
    forall k :: 0 <= k < |level| ==> SoundPath(book, o, now, depth, level[k])
  }

  ghost predicate SoundPath(book: seq<Row>, o: Order, now: int, depth: nat, p: Path) {
    exists os :: IsPathOf(book, o, now, depth, p, os)
  }

  ghost predicate LevelComplete(book: seq<Row>, o: Order, now: int, depth: nat, level: seq<Path>) {
    forall os :: Chain(book, o, now, os) && |os| == depth ==> PathOf(os) in level
  }

  lemma {:induction false} ClashFree(o: Tfl, x: seq<Tfl>, i: nat)
    requires i <= |x| && forall k :: i <= k < |x| ==> x[k].oid != o.oid && x[k].id != o.id
    ensures Clash(o, x, i) == None
    decreases |x| - i
  {
    if i < |x| { ClashFree(o, x, i + 1); }
  }

  /** A live order of the book that matches the begin of a chain and whose stock is
      not in it makes a longer chain, and the path grows without an error. */
  lemma GrowChain(book: seq<Row>, o: Order, now: int, os: seq<Order>, k: nat)
    requires UniqueIds(book, o) && Chain(book, o, now, os) && |os| < MAXCYCLE
    requires k < |book| && Joins(book[k], PathOf(os), now)
    ensures Chain(book, o, now, [book[k].ord] + os)
    ensures GrowBackward(book[k].ord, os[0], PathOf(os).path) == Ok(PathOf([book[k].ord] + os).path)
  {
    hide Matches, Live;
    FreshOrder(book, o, now, os, k);
    ChainGrows(book, o, now, os, k);
    hide Chain, UniqueIds;
    var r, y := book[k].ord, PathOf(os);
    var zs := [r] + os;
    ClashFree(ToFl(r), y.path.x, 0);
    var g := WithFirst(FlowRecord([ToFl(r)] + y.path.x, [0] + y.path.flowr), 1.0);
    assert g.x == ChainNodes(zs);
    assert g.flowr == Zeros(|zs|);
  }

  /** An order of the book whose stock is not in a chain is not one of the chain. */
  lemma FreshOrder(book: seq<Row>, o: Order, now: int, os: seq<Order>, k: nat)
    requires UniqueIds(book, o) && Chain(book, o, now, os)
    requires k < |book| && !ContainsOid(book[k].ord.oid, PathOf(os).path.x)
    ensures forall i :: 0 <= i < |os| ==> os[i].oid != book[k].ord.oid && os[i].id != book[k].ord.id
  {
    forall i | 0 <= i < |os|
      ensures os[i].oid != book[k].ord.oid && os[i].id != book[k].ord.id
    {
      assert PathOf(os).path.x[i].oid == os[i].oid;
      if i < |os| - 1 { assert InBook(book, now, os[i]); }
    }
  }

  lemma ChainGrows(book: seq<Row>, o: Order, now: int, os: seq<Order>, k: nat)
    requires Chain(book, o, now, os) && k < |book| && Matches(book[k].ord, os[0]) && Live(book[k], now)
    requires forall i :: 0 <= i < |os| ==> os[i].oid != book[k].ord.oid
    ensures Chain(book, o, now, [book[k].ord] + os)
  {
    hide Matches;
    assert InBook(book, now, book[k].ord);
  }

  /** The rows joined to the path of a chain are the paths of the chains that are
      one order longer. */
  lemma {:induction false} JoinRowsChains(book: seq<Row>, o: Order, now: int, os: seq<Order>, n: nat)
    requires UniqueIds(book, o) && Chain(book, o, now, os) && |os| < MAXCYCLE && n <= |book|
    ensures JoinRows(book[..n], PathOf(os), now).Ok?
    ensures LevelSound(book, o, now, |os| + 1, JoinRows(book[..n], PathOf(os), now).value)
    ensures forall k :: 0 <= k < n && Joins(book[k], PathOf(os), now) ==>
              PathOf([book[k].ord] + os) in JoinRows(book[..n], PathOf(os), now).value
  {
    if n > 0 {
      JoinRowsChains(book, o, now, os, n - 1);
      assert book[..n][..n - 1] == book[..n - 1];
      var y := PathOf(os);
      if Joins(book[n - 1], y, now) {
        GrowChain(book, o, now, os, n - 1);
        hide GrowBackward, Chain;
        var zs := [book[n - 1].ord] + os;
        assert IsPathOf(book, o, now, |os| + 1, PathOf(zs), zs);
        assert SoundPath(book, o, now, |os| + 1, PathOf(zs));
        assert zs[|zs| - 1] == os[|os| - 1];
        assert JoinRows(book[..n], y, now).value == JoinRows(book[..n - 1], y, now).value + [PathOf(zs)];
      }
    }
  }

  /** A path is the path of one chain only. */
  lemma ChainOfPath(book: seq<Row>, o: Order, now: int, os: seq<Order>, k: nat)
    requires Chain(book, o, now, os) && 0 < k < |os|
    ensures Chain(book, o, now, os[k..])
  {
    forall i | 0 <= i < |os| - k - 1
      ensures InBook(book, now, os[k..][i]) && Matches(os[k..][i], os[k..][i + 1])
    {}
  }

  /** Every order that heads a longer chain joins the path of the rest. */
  lemma HeadJoins(book: seq<Row>, o: Order, now: int, zs: seq<Order>) returns (k: nat)
    requires Chain(book, o, now, zs) && 2 <= |zs| <= MAXCYCLE
    ensures k < |book| && book[k].ord == zs[0] && Joins(book[k], PathOf(zs[1..]), now)
    ensures Chain(book, o, now, zs[1..])
  {
    ChainOfPath(book, o, now, zs, 1);
    assert InBook(book, now, zs[0]);
    k :| 0 <= k < |book| && book[k].ord == zs[0] && Live(book[k], now);
    var x := PathOf(zs[1..]).path.x;
    forall i | 0 <= i < |x|
      ensures x[i].oid != zs[0].oid
    {
      assert x[i].oid == zs[i + 1].oid;
    }
  }

  lemma {:induction false} NextLevelSound(book: seq<Row>, o: Order, now: int, depth: nat, level: seq<Path>)
    requires UniqueIds(book, o) && depth < MAXCYCLE && LevelSound(book, o, now, depth, level)
    ensures NextLevel(book, level, now).Ok?
    ensures LevelSound(book, o, now, depth + 1, NextLevel(book, level, now).value)
  {
    if |level| > 0 {
      var init := level[..|level| - 1];
      assert forall k :: 0 <= k < |init| ==> init[k] == level[k];
      NextLevelSound(book, o, now, depth, init);
      var y := level[|level| - 1];
      assert SoundPath(book, o, now, depth, y);
      hide Chain, PathOf, UniqueIds, JoinRows;
      var os :| IsPathOf(book, o, now, depth, y, os);
      JoinRowsChains(book, o, now, os, |book|);
      assert book[..|book|] == book;
    }
  }

  lemma {:induction false} NextLevelHolds(book: seq<Row>, level: seq<Path>, now: int, j: nat, p: Path)
    requires j < |level| && NextLevel(book, level, now).Ok?
    requires JoinRows(book, level[j], now).Ok? && p in JoinRows(book, level[j], now).value
    ensures p in NextLevel(book, level, now).value
  {
    if j < |level| - 1 { NextLevelHolds(book, level[..|level| - 1], now, j, p); }
  }

  lemma NextLevelComplete(book: seq<Row>, o: Order, now: int, depth: nat, level: seq<Path>)
    requires UniqueIds(book, o) && 1 <= depth < MAXCYCLE && LevelComplete(book, o, now, depth, level)
    requires NextLevel(book, level, now).Ok?
    ensures LevelComplete(book, o, now, depth + 1, NextLevel(book, level, now).value)
  {
    forall zs | Chain(book, o, now, zs) && |zs| == depth + 1
      ensures PathOf(zs) in NextLevel(book, level, now).value
    {
      hide *;
      var k := HeadJoins(book, o, now, zs);
      var j := RestInLevel(book, o, now, depth, level, zs);
      JoinReaches(book, o, now, zs, k);
      NextLevelHolds(book, level, now, j, PathOf(zs));
    }
  }

  lemma RestInLevel(book: seq<Row>, o: Order, now: int, depth: nat, level: seq<Path>, zs: seq<Order>)
    returns (j: nat)
    requires LevelComplete(book, o, now, depth, level)
    requires 1 <= depth && |zs| == depth + 1 && Chain(book, o, now, zs[1..])
    ensures j < |level| && level[j] == PathOf(zs[1..])
  {
    hide Chain, PathOf;
    j :| 0 <= j < |level| && level[j] == PathOf(zs[1..]);
  }

  lemma JoinReaches(book: seq<Row>, o: Order, now: int, zs: seq<Order>, k: nat)
    requires UniqueIds(book, o) && 2 <= |zs| <= MAXCYCLE && Chain(book, o, now, zs[1..])
    requires k < |book| && book[k].ord == zs[0] && Joins(book[k], PathOf(zs[1..]), now)
    ensures JoinRows(book, PathOf(zs[1..]), now).Ok?
    ensures PathOf(zs) in JoinRows(book, PathOf(zs[1..]), now).value
  {
    hide UniqueIds, Chain, PathOf, LevelSound, Joins, JoinRows;
    JoinRowsChains(book, o, now, zs[1..], |book|);
    assert book[..|book|] == book && [book[k].ord] + zs[1..] == zs;
  }

  /** The rows fetched are the paths of the chains between two depths. */
  ghost predicate RowsSound(book: seq<Row>, o: Order, now: int, depth: nat, rows: seq<Path>) {
    forall k :: 0 <= k < |rows| ==> SoundRow(book, o, now, depth, rows[k])
  }

  ghost predicate SoundRow(book: seq<Row>, o: Order, now: int, depth: nat, p: Path) {
    exists os :: IsPathOf(book, o, now, |os|, p, os) && depth <= |os| <= MAXCYCLE
  }

  ghost predicate RowsComplete(book: seq<Row>, o: Order, now: int, depth: nat, rows: seq<Path>) {
    forall os :: Chain(book, o, now, os) && depth <= |os| <= MAXCYCLE ==> PathOf(os) in rows
  }

  lemma LevelRowsSound(book: seq<Row>, o: Order, now: int, depth: nat, level: seq<Path>)
    requires LevelSound(book, o, now, depth, level) && depth <= MAXCYCLE
    ensures RowsSound(book, o, now, depth, level)
  {
    forall k | 0 <= k < |level|
      ensures SoundRow(book, o, now, depth, level[k])
    {
      assert SoundPath(book, o, now, depth, level[k]);
      var os :| IsPathOf(book, o, now, depth, level[k], os);
      assert IsPathOf(book, o, now, |os|, level[k], os);
    }
  }

  lemma {:induction false} SearchFromLevel(book: seq<Row>, o: Order, now: int, depth: nat, level: seq<Path>)
    requires UniqueIds(book, o) && 1 <= depth <= MAXCYCLE
    requires LevelSound(book, o, now, depth, level) && LevelComplete(book, o, now, depth, level)
    ensures SearchFrom(book, level, depth, now).Ok?
    ensures RowsSound(book, o, now, depth, SearchFrom(book, level, depth, now).value)
    ensures RowsComplete(book, o, now, depth, SearchFrom(book, level, depth, now).value)
    decreases MAXCYCLE - depth
  {
    hide NextLevel, LevelSound, LevelComplete, RowsSound, RowsComplete, UniqueIds;
    LevelRowsSound(book, o, now, depth, level);
    if depth < MAXCYCLE {
      NextLevelSound(book, o, now, depth, level);
      var next := NextLevel(book, level, now).value;
      NextLevelComplete(book, o, now, depth, level);
      SearchFromLevel(book, o, now, depth + 1, next);
      RowsAppend(book, o, now, depth, level, SearchFrom(book, next, depth + 1, now).value);
    } else {
      LastRowsComplete(book, o, now, level);
    }
  }

  lemma LastRowsComplete(book: seq<Row>, o: Order, now: int, level: seq<Path>)
    requires LevelComplete(book, o, now, MAXCYCLE, level)
    ensures RowsComplete(book, o, now, MAXCYCLE, level)
  {
    hide Chain, PathOf;
  }

  lemma RowsAppend(book: seq<Row>, o: Order, now: int, depth: nat, level: seq<Path>, deeper: seq<Path>)
    requires RowsSound(book, o, now, depth, level) && LevelComplete(book, o, now, depth, level)
    requires RowsSound(book, o, now, depth + 1, deeper) && RowsComplete(book, o, now, depth + 1, deeper)
    ensures RowsSound(book, o, now, depth, level + deeper)
    ensures RowsComplete(book, o, now, depth, level + deeper)
  {
    hide Chain, IsPathOf, PathOf;
    forall k | 0 <= k < |level + deeper|
      ensures SoundRow(book, o, now, depth, (level + deeper)[k])
    {
      if k >= |level| {
        assert SoundRow(book, o, now, depth + 1, deeper[k - |level|]);
      }
    }
  }

  lemma FirstLevelHolds(book: seq<Row>, o: Order, now: int)
    ensures LevelSound(book, o, now, 1, FirstLevel(o))
    ensures LevelComplete(book, o, now, 1, FirstLevel(o))
  {
    assert PathOf([o]).path.x == YflowInit(o).x;
    assert PathOf([o]).path.flowr == YflowInit(o).flowr;
    assert IsPathOf(book, o, now, 1, FirstLevel(o)[0], [o]);
    forall os | Chain(book, o, now, os) && |os| == 1
      ensures PathOf(os) in FirstLevel(o)
    {
      assert os == [o];
      assert PathOf(os) == FirstLevel(o)[0];
    }
  }

  /** The paths fetched are those of the chains of at most MAXCYCLE orders, no
      more and no less, and no error is raised while they grow. */
  lemma SearchIsChains(book: seq<Row>, o: Order, now: int)
    requires UniqueIds(book, o)
    ensures SearchFrom(book, FirstLevel(o), 1, now).Ok?
    ensures RowsSound(book, o, now, 1, SearchFrom(book, FirstLevel(o), 1, now).value)
    ensures RowsComplete(book, o, now, 1, SearchFrom(book, FirstLevel(o), 1, now).value)
  {
    FirstLevelHolds(book, o, now);
    SearchFromLevel(book, o, now, 1, FirstLevel(o));
  }

  // ---------------------------------------------------------------------------
  // The limit of the query

  /** The paths are fetched level after level. */
  ghost predicate ByDepth(ps: seq<Path>) {
    forall i, j :: 0 <= i < j < |ps| ==> ps[i].depth <= ps[j].depth
  }

  /** How many paths have at most k orders. */
  function CountShort(ps: seq<Path>, k: nat): nat {
    if |ps| == 0 then 0 else CountShort(ps[..|ps| - 1], k) + if ps[|ps| - 1].depth <= k then 1 else 0
  }

  lemma {:induction false} ShortPrefix(ps: seq<Path>, k: nat, n: nat)
    requires n <= |ps| && forall i :: 0 <= i < n ==> ps[i].depth <= k
    ensures CountShort(ps, k) >= n
  {
    if |ps| > 0 { ShortPrefix(ps[..|ps| - 1], k, if n == |ps| then n - 1 else n); }
  }

  lemma SoundDepth(book: seq<Row>, o: Order, now: int, depth: nat, p: Path)
    requires SoundRow(book, o, now, depth, p)
    ensures depth <= p.depth <= MAXCYCLE
  {
    hide Chain;
    var os: seq<Order> :| IsPathOf(book, o, now, |os|, p, os) && depth <= |os| <= MAXCYCLE;
  }

  lemma LevelDepth(book: seq<Row>, o: Order, now: int, depth: nat, p: Path)
    requires SoundPath(book, o, now, depth, p)
    ensures p.depth == depth
  {
    hide Chain;
    var os: seq<Order> :| IsPathOf(book, o, now, depth, p, os);
  }

  lemma DeeperLast(level: seq<Path>, deeper: seq<Path>, depth: nat)
    requires forall i :: 0 <= i < |level| ==> level[i].depth == depth
    requires (forall i :: 0 <= i < |deeper| ==> deeper[i].depth > depth) && ByDepth(deeper)
    ensures ByDepth(level + deeper) && ByDepth(level)
  {}

  lemma SearchGoesOn(book: seq<Row>, level: seq<Path>, depth: nat, now: int)
    requires depth < MAXCYCLE && NextLevel(book, level, now).Ok?
    requires SearchFrom(book, NextLevel(book, level, now).value, depth + 1, now).Ok?
    ensures SearchFrom(book, level, depth, now) ==
            Ok(level + SearchFrom(book, NextLevel(book, level, now).value, depth + 1, now).value)
  {
    hide NextLevel;
  }

  lemma SearchEnds(book: seq<Row>, level: seq<Path>, now: int)
    ensures SearchFrom(book, level, MAXCYCLE, now) == Ok(level)
  {}

  lemma NothingDeeper()
    ensures ByDepth([])
  {}

  lemma LevelAt(book: seq<Row>, o: Order, now: int, depth: nat, level: seq<Path>, i: nat)
    requires LevelSound(book, o, now, depth, level) && i < |level|
    ensures level[i].depth == depth
  {
    hide SoundPath;
    LevelDepth(book, o, now, depth, level[i]);
  }

  lemma RowAt(book: seq<Row>, o: Order, now: int, depth: nat, rows: seq<Path>, i: nat)
    requires RowsSound(book, o, now, depth, rows) && i < |rows|
    ensures rows[i].depth >= depth
  {
    hide SoundRow;
    SoundDepth(book, o, now, depth, rows[i]);
  }

  lemma {:induction false} FetchedByDepth(book: seq<Row>, o: Order, now: int, depth: nat, level: seq<Path>)
    requires UniqueIds(book, o) && 1 <= depth <= MAXCYCLE
    requires LevelSound(book, o, now, depth, level) && LevelComplete(book, o, now, depth, level)
    ensures SearchFrom(book, level, depth, now).Ok? && ByDepth(SearchFrom(book, level, depth, now).value)
    decreases MAXCYCLE - depth
  {
    hide *;
    forall i | 0 <= i < |level|
      ensures level[i].depth == depth
    {
      LevelAt(book, o, now, depth, level, i);
    }
    if depth < MAXCYCLE {
      NextLevelSound(book, o, now, depth, level);
      NextLevelComplete(book, o, now, depth, level);
      var next := NextLevel(book, level, now).value;
      FetchedByDepth(book, o, now, depth + 1, next);
      SearchFromLevel(book, o, now, depth + 1, next);
      var deeper := SearchFrom(book, next, depth + 1, now).value;
      forall i | 0 <= i < |deeper|
        ensures deeper[i].depth > depth
      {
        RowAt(book, o, now, depth + 1, deeper, i);
      }
      SearchGoesOn(book, level, depth, now);
      DeeperLast(level, deeper, depth);
    } else {
      SearchEnds(book, level, now);
      NothingDeeper();
      DeeperLast(level, [], depth);
    }
  }

  lemma PathOfChain(book: seq<Row>, o: Order, now: int, rows: seq<Path>, os: seq<Order>) returns (i: nat)
    requires RowsComplete(book, o, now, 1, rows) && Chain(book, o, now, os) && |os| <= MAXCYCLE
    ensures |os| >= 1 && i < |rows| && rows[i] == PathOf(os) && rows[i].depth == |os|
  {
    i :| 0 <= i < |rows| && rows[i] == PathOf(os);
  }

  /** The first 1024 paths are kept. */
  lemma FirstAreKept(rows: seq<Path>, k: nat, i: nat)
    requires ByDepth(rows) && i < |rows| && rows[i].depth <= k && CountShort(rows, k) <= 1024
    ensures rows[i] in Limited(rows)
  {
    if i >= 1024 {
      ShortPrefix(rows, k, i + 1);
    } else {
      hide CountShort;
      assert Limited(rows)[i] == rows[i];
    }
  }

  /** The limit keeps the paths fetched first: when at most 1024 paths have at most k
      orders, the path of every chain of at most k orders is kept. */
  lemma ShortChainsKept(book: seq<Row>, o: Order, now: int, k: nat, os: seq<Order>)
    requires UniqueIds(book, o) && Chain(book, o, now, os) && |os| <= k && |os| <= MAXCYCLE
    requires SearchFrom(book, FirstLevel(o), 1, now).Ok?
    requires CountShort(SearchFrom(book, FirstLevel(o), 1, now).value, k) <= 1024
    ensures |os| >= 1 && PathOf(os) in Limited(SearchFrom(book, FirstLevel(o), 1, now).value)
  {
    hide *;
    DepthFits();
    FirstLevelHolds(book, o, now);
    FetchedByDepth(book, o, now, 1, FirstLevel(o));
    SearchIsChains(book, o, now);
    var rows := SearchFrom(book, FirstLevel(o), 1, now).value;
    var i := PathOfChain(book, o, now, rows, os);
    FirstAreKept(rows, k, i);
  }

  lemma DepthFits()
    ensures 1 <= MAXCYCLE
  {}
}
