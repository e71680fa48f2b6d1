/** What the messages of whole runs tell of each order and of each stock. */
module Histories {
  import opened Numeric
  import opened FlowTypes
  import opened Orders
  import opened Guarantees
  import opened Yflow
  import opened Search
  import opened Cycles
  import opened Matching
  import opened Coherence
  import opened Book
  import opened Settlement
  import opened Exchange
  import opened MarketRuns
  import opened Conservation
  import opened Primitives
  import opened Freshness
  import opened Runs

  // ---------------------------------------------------------------------------
  // Sums over messages

  /** What the messages tell an order to have given. */
  function Gave(ms: seq<Message>, id: int): int {
    if |ms| == 0 then 0
    else Gave(ms[..|ms| - 1], id) + if ms[|ms| - 1].orderId == id then ms[|ms| - 1].from.qtt else 0
  }

  /** What the messages tell an order to have received. */
  function Got(ms: seq<Message>, id: int): int {
    if |ms| == 0 then 0
    else Got(ms[..|ms| - 1], id) + if ms[|ms| - 1].orderId == id then ms[|ms| - 1].to.qtt else 0
  }

  /** What the messages tell to have been taken from a stock. */
  function Drawn(ms: seq<Message>, oid: int): int {
    if |ms| == 0 then 0
    else Drawn(ms[..|ms| - 1], oid) + if ms[|ms| - 1].stock.id == oid then ms[|ms| - 1].from.qtt else 0
  }

  /** What movements take from a stock. */
  function DrawnBy(mvts: seq<Movement>, oid: int): int {
    if |mvts| == 0 then 0
    else DrawnBy(mvts[..|mvts| - 1], oid) + if mvts[|mvts| - 1].ord.oid == oid then mvts[|mvts| - 1].qtt else 0
  }

  lemma {:induction false} DrawnAppend(a: seq<Message>, b: seq<Message>, oid: int)
    ensures Drawn(a + b, oid) == Drawn(a, oid) + Drawn(b, oid)
  {
    if |b| == 0 {
      assert a + b == a;
    } else {
      assert (a + b)[..|a + b| - 1] == a + b[..|b| - 1];
      DrawnAppend(a, b[..|b| - 1], oid);
    }
  }

  lemma {:induction false} DrawnRotated(mvts: seq<Movement>, grp: int, orig: int, oid: int, k: nat)
    requires 1 <= k <= |mvts|
    ensures Drawn(Messages(mvts, grp, orig)[..k], oid) ==
            DrawnBy(mvts[..k - 1], oid) + if mvts[|mvts| - 1].ord.oid == oid then mvts[|mvts| - 1].qtt else 0
  {
    var ms := Messages(mvts, grp, orig);
    hide *;
    DrawnTake(ms, k - 1, oid);
    MessageGives(mvts, grp, orig, k - 1);
    BeforeIs(k - 1, |mvts|);
    if k == 1 {
      DrawnNone(ms[..0], mvts[..0], oid);
    } else {
      DrawnRotated(mvts, grp, orig, oid, k - 1);
      DrawnByTake(mvts, k - 2, oid);
    }
  }

  lemma DrawnNone(ms: seq<Message>, mvts: seq<Movement>, oid: int)
    requires ms == [] && mvts == []
    ensures Drawn(ms, oid) == 0 && DrawnBy(mvts, oid) == 0
  {}

  lemma DrawnTake(ms: seq<Message>, k: nat, oid: int)
    requires k < |ms|
    ensures Drawn(ms[..k + 1], oid) == Drawn(ms[..k], oid) + if ms[k].stock.id == oid then ms[k].from.qtt else 0
  {
    assert ms[..k + 1][..k] == ms[..k];
  }

  lemma DrawnByTake(mvts: seq<Movement>, k: nat, oid: int)
    requires k < |mvts|
    ensures DrawnBy(mvts[..k + 1], oid) == DrawnBy(mvts[..k], oid) + if mvts[k].ord.oid == oid then mvts[k].qtt else 0
  {
    assert mvts[..k + 1][..k] == mvts[..k];
  }

  /** The messages of a cycle tell of a stock what its movements take from it. */
  lemma MessagesDraw(mvts: seq<Movement>, grp: int, orig: int, oid: int)
    requires |mvts| >= 1
    ensures Drawn(Messages(mvts, grp, orig), oid) == DrawnBy(mvts, oid)
  {
    var ms, n := Messages(mvts, grp, orig), |mvts|;
    DrawnRotated(mvts, grp, orig, oid, n);
    assert ms[..n] == ms;
  }

  /** The movements of the first k steps take what the steps take. */
  lemma {:induction false} StepsDraw(book: seq<Row>, c: Tflow, first: int, mvts: seq<Movement>, oid: int, k: nat)
    requires IsDraft(c) && |mvts| == |c.x| && MovementsOf(book, c, first, mvts) && k <= |c.x|
    ensures DrawnBy(mvts[..k], oid) == TakenBy(c, k, oid)
  {
    if k > 0 {
      StepsDraw(book, c, first, mvts, oid, k - 1);
      assert mvts[..k][..k - 1] == mvts[..k - 1];
      assert MovementOf(book, c, first, k - 1, mvts[k - 1]);
    }
  }

  lemma MovementsDraw(book: seq<Row>, c: Tflow, first: int, mvts: seq<Movement>, oid: int)
    requires IsDraft(c) && DistinctOids(c.x) && |mvts| == |c.x| && MovementsOf(book, c, first, mvts)
    ensures DrawnBy(mvts, oid) == Amount(c, oid)
  {
    hide MovementsOf, Amount;
    StepsDraw(book, c, first, mvts, oid, |c.x|);
    TakenByAll(c, oid);
    assert mvts[..|c.x|] == mvts;
  }

  // ---------------------------------------------------------------------------
  // What one cycle tells

  /** The message is about the row: its user, its owner, its terms and its stock. */
  predicate About(m: Message, r: Row) {
    && m.usr == m.stock.usr == r.usr && m.stock.own == r.owner
    && m.orderId == r.ord.id && m.stock.id == r.ord.oid
    && m.qttProv == r.ord.qttProv && m.qttRequ == r.ord.qttRequ
    && (m.isLimit <==> OrderType(r.ord.kind) == ORDER_LIMIT)
    && m.from.nature == m.stock.nature == r.ord.quaProv
  }

  /** A message of the order of row k, that gives something for something that it asks
      for, within its limit. */
  ghost predicate HonestAt(book: seq<Row>, m: Message, k: nat) {
    && k < |book| && About(m, book[k]) && m.from.qtt > 0 && m.to.qtt > 0
    && Meets(m.to.nature, book[k].ord.quaRequ)
    && (m.isLimit ==> WithinLimit(book[k].ord, m.from.qtt, m.to.qtt))
  }

  ghost predicate Honest(book: seq<Row>, m: Message) {
    exists k: nat :: HonestAt(book, m, k)
  }

  ghost predicate AllHonest(book: seq<Row>, ms: seq<Message>) {
    forall j :: 0 <= j < |ms| ==> Honest(book, ms[j])
  }

  /** From a market to a later one: the same rows, more messages, all honest, and each
      stock debited by what they tell. */
  ghost predicate Tells(m: Market, m1: Market) {
    && SameShape(m.torder, m1.torder)
    && (AllHonest(m.torder, m.tmsg) ==> AllHonest(m.torder, m1.tmsg))
    && forall k :: 0 <= k < |m.torder| ==> SameSum(m, m1, k)
  }

  predicate SameSum(m: Market, m1: Market, k: nat)
    requires k < |m.torder| && k < |m1.torder|
  {
    var a, b := m.torder[k].ord, m1.torder[k].ord;
    b.qtt + Drawn(m1.tmsg, a.oid) == a.qtt + Drawn(m.tmsg, a.oid)
  }

  /** The order of a node of a cycle is the one of its row. */
  lemma NodeOrder(root: RootFunction, book: seq<Row>, n: nat, now: int, c: Tflow, os: seq<Order>, i: nat, k: nat)
    requires IsRoot(root) && UniqueBook(book) && n < |book| && IsCycleOf(root, book, book[n].ord, now, c, os)
    requires i < |c.x| && NodeAt(book, c.x[i], k)
    ensures k < |book| && |os| == |c.x| && book[k].ord == os[i]
    ensures var b, o := c.x[i], book[k].ord;
            b.kind == o.kind && b.qttRequ == o.qttRequ && b.qttProv == o.qttProv
  {
    hide Recorded, Matches;
    var j: nat :| j < |book| && book[j].ord == os[i] by {
      if i < |os| - 1 { assert InBook(book, now, os[i]); } else { assert book[n].ord == os[i]; }
    }
    OneRow(book, j, k);
  }

  /** Round a cycle each order provides what the next one asks for. */
  lemma RoundMeets(root: RootFunction, book: seq<Row>, o: Order, now: int, c: Tflow, os: seq<Order>, i: nat)
    requires IsRoot(root) && IsCycleOf(root, book, o, now, c, os) && i < |os|
    ensures Meets(os[Before(i, |os|)].quaProv, os[i].quaRequ)
  {
    hide Recorded, Regular, MatchQuality;
    QualitiesMeet(os[Before(i, |os|)].quaProv, os[i].quaRequ);
    hide Meets;
    if i > 0 { assert Matches(os[i - 1], os[i]); }
  }

  lemma OneRow(book: seq<Row>, j: nat, k: nat)
    requires UniqueBook(book) && j < |book| && k < |book| && book[j].ord.id == book[k].ord.id
    ensures j == k
  {}

  /** The message of a node is honest. */
  lemma NodeHonest(root: RootFunction, book: seq<Row>, n: nat, now: int, c: Tflow, i: nat, m: Message)
    requires IsRoot(root) && UniqueBook(book) && n < |book| && SoundCycle(root, book, book[n].ord, now, c)
    requires Recorded(root, c) && i < |c.x| && TellsNode(book, c, i, m)
    ensures Honest(book, m)
  {
    var os :| IsCycleOf(root, book, book[n].ord, now, c, os);
    hide *;
    var k, p, s := TellsRows(book, c, i, m);
    NodeOrder(root, book, n, now, c, os, i, k);
    NodeOrder(root, book, n, now, c, os, Before(i, |c.x|), p);
    RoundMeets(root, book, book[n].ord, now, c, os, i);
    RecordedGives(root, c, i);
    HonestIs(book, c, i, m, k, p, s);
  }

  lemma TellsRows(book: seq<Row>, c: Tflow, i: nat, m: Message) returns (k: nat, p: nat, s: nat)
    requires i < |c.x| && TellsNode(book, c, i, m)
    ensures k < |book| && p < |book| && s < |book| && Told(book, c, i, m, k, p, s)
    ensures NodeAt(book, c.x[i], k) && NodeAt(book, c.x[Before(i, |c.x|)], p)
  {
    hide Told;
    k, p, s :| NodeAt(book, c.x[i], k) && NodeAt(book, c.x[Before(i, |c.x|)], p)
      && NodeAt(book, c.x[After(i, |c.x|)], s) && Told(book, c, i, m, k, p, s);
  }

  lemma HonestIs(book: seq<Row>, c: Tflow, i: nat, m: Message, k: nat, p: nat, s: nat)
    requires i < |c.x| && k < |book| && p < |book| && s < |book| && Told(book, c, i, m, k, p, s)
    requires c.flowr[i] > 0 && c.flowr[Before(i, |c.x|)] > 0
    requires c.x[i].kind == book[k].ord.kind && c.x[i].qttRequ == book[k].ord.qttRequ
    requires c.x[i].qttProv == book[k].ord.qttProv
    requires c.x[i].IsLimit() ==> c.flowr[i] * c.x[i].qttRequ <= c.x[i].qttProv * c.flowr[Before(i, |c.x|)]
    requires Meets(book[p].ord.quaProv, book[k].ord.quaRequ)
    ensures Honest(book, m)
  {
    hide Meets;
    assert HonestAt(book, m, k);
  }

  lemma RecordedGives(root: RootFunction, c: Tflow, i: nat)
    requires IsRoot(root) && Recorded(root, c) && i < |c.x|
    ensures c.flowr[i] > 0 && c.flowr[Before(i, |c.x|)] > 0
    ensures c.x[i].IsLimit() ==>
              c.flowr[i] * c.x[i].qttRequ <= c.x[i].qttProv * c.flowr[Before(i, |c.x|)]
  {
    hide Kernel.FlowcMaximum;
    RegularUnflagged(c.x);
    if c.x[i].IsLimit() { DraftObservesLimit(root, c, c, i); }
  }

  lemma RoundTheCycle(j: nat, n: nat)
    requires j < n
    ensures var i := Before(Before(j, n), n);
            i < n && After(After(i, n), n) == j
  {}

  /** The execution of a cycle found in the book adds honest messages, and they tell
      what it takes from each stock. */
  lemma CycleTells(root: RootFunction, m: Market, o: Order, n: nat, now: int, stock: Stock, c: Tflow)
    requires IsRoot(root) && n < |m.torder| && SoundCycle(root, m.torder, m.torder[n].ord, now, c)
    requires Cached(root, o, stock, c) && BookBacked(m.torder, stock) && UniqueBook(m.torder) && InTheBook(m.torder, c)
    ensures IsDraft(c) && ExecuteCycle(m, o, c).Ok? && Tells(m, ExecuteCycle(m, o, c).value)
  {
    hide *;
    CachedParts(root, o, stock, c);
    CachedExecutes(root, o, stock, m.torder, c, m.nextMvt);
    var e := ExecuteFlow(m.torder, c, m.nextMvt).value;
    var ms := Messages(e.mvts, m.nextMvt, o.id);
    forall j | 0 <= j < |ms|
      ensures Honest(m.torder, ms[j])
    {
      var i := Before(Before(j, |c.x|), |c.x|);
      RoundTheCycle(j, |c.x|);
      ReceivesFromPredecessor(m.torder, c, m.nextMvt, e.mvts, m.nextMvt, o.id, i);
      NodeHonest(root, m.torder, n, now, c, i, ms[j]);
    }
    forall k | 0 <= k < |m.torder|
      ensures Drawn(ms, m.torder[k].ord.oid) == Amount(c, m.torder[k].ord.oid)
    {
      MessagesDraw(e.mvts, m.nextMvt, o.id, m.torder[k].ord.oid);
      MovementsDraw(m.torder, c, m.nextMvt, e.mvts, m.torder[k].ord.oid);
    }
    ExecutedTells(m, o, c, e, ms);
  }

  lemma CachedParts(root: RootFunction, o: Order, stock: Stock, c: Tflow)
    requires IsRoot(root) && Cached(root, o, stock, c)
    ensures Recorded(root, c) && IsDraft(c) && |c.x| >= 2 && DistinctOids(c.x)
  {
    hide Kernel.FlowcMaximum, Backed, EndsWith;
  }

  lemma ExecutedTells(m: Market, o: Order, c: Tflow, e: Executed, ms: seq<Message>)
    requires IsDraft(c) && Affordable(m.torder, c) && ExecuteFlow(m.torder, c, m.nextMvt) == Ok(e)
    requires e.book == DebitBook(m.torder, c) && ms == Messages(e.mvts, m.nextMvt, o.id)
    requires forall j :: 0 <= j < |ms| ==> Honest(m.torder, ms[j])
    requires forall k :: 0 <= k < |m.torder| ==> Drawn(ms, m.torder[k].ord.oid) == Amount(c, m.torder[k].ord.oid)
    ensures ExecuteCycle(m, o, c).Ok? && Tells(m, ExecuteCycle(m, o, c).value)
  {
    hide *;
    ExecutedIs(m, o, c, e, ms);
    var m1 := ExecuteCycle(m, o, c).value;
    DebitedShape(m.torder, c);
    HonestConcat(m.torder, m.tmsg, ms);
    forall k | 0 <= k < |m.torder|
      ensures k < |m1.torder| && SameSum(m, m1, k)
    {
      DrawnAppend(m.tmsg, ms, m.torder[k].ord.oid);
      SumAfter(m, m1, c, ms, k);
    }
    TellsIf(m, m1);
  }

  lemma ExecutedIs(m: Market, o: Order, c: Tflow, e: Executed, ms: seq<Message>)
    requires IsDraft(c) && ExecuteFlow(m.torder, c, m.nextMvt) == Ok(e) && ms == Messages(e.mvts, m.nextMvt, o.id)
    ensures ExecuteCycle(m, o, c).Ok?
    ensures var m1 := ExecuteCycle(m, o, c).value;
            m1.torder == e.book && m1.tmsg == m.tmsg + ms
  {
    hide ExecuteFlow, Messages;
  }

  lemma DebitedShape(book: seq<Row>, c: Tflow)
    requires Affordable(book, c)
    ensures SameShape(book, DebitBook(book, c)) && |DebitBook(book, c)| == |book|
  {
    hide Amount;
  }

  lemma HonestConcat(book: seq<Row>, a: seq<Message>, b: seq<Message>)
    requires forall j :: 0 <= j < |b| ==> Honest(book, b[j])
    ensures AllHonest(book, a) ==> AllHonest(book, a + b)
  {
    hide Honest;
  }

  lemma SumAfter(m: Market, m1: Market, c: Tflow, ms: seq<Message>, k: nat)
    requires Affordable(m.torder, c) && m1.torder == DebitBook(m.torder, c) && k < |m.torder| == |m1.torder|
    requires Drawn(ms, m.torder[k].ord.oid) == Amount(c, m.torder[k].ord.oid)
    requires Drawn(m1.tmsg, m.torder[k].ord.oid) ==
             Drawn(m.tmsg, m.torder[k].ord.oid) + Drawn(ms, m.torder[k].ord.oid)
    ensures SameSum(m, m1, k)
  {
    hide Amount, Drawn;
  }

  lemma TellsIf(m: Market, m1: Market)
    requires SameShape(m.torder, m1.torder) && (AllHonest(m.torder, m.tmsg) ==> AllHonest(m.torder, m1.tmsg))
    requires forall k :: 0 <= k < |m.torder| ==> k < |m1.torder| && SameSum(m, m1, k)
    ensures Tells(m, m1)
  {
    hide AllHonest, SameSum;
  }

  lemma {:induction false} StepsNumbered(book: seq<Row>, c: Tflow, first: int, k: nat)
    requires IsDraft(c) && k <= |c.x| && ExecSteps(book, c, first, k).Ok?
    ensures Numbered(ExecSteps(book, c, first, k).value.mvts, first)
  {
    hide TakeStock, RowOf;
    if k > 0 { StepsNumbered(book, c, first, k - 1); }
  }

  lemma ExecutedSteps(m: Market, o: Order, c: Tflow) returns (mvts: seq<Movement>)
    requires IsDraft(c) && ExecuteCycle(m, o, c).Ok?
    ensures |mvts| == |c.x| && Numbered(mvts, m.nextMvt)
    ensures var m1 := ExecuteCycle(m, o, c).value;
            m1.tmsg == m.tmsg + Messages(mvts, m.nextMvt, o.id) && m1.nextMvt == m.nextMvt + |c.x|
  {
    hide ExecSteps, Messages, Numbered;
    StepsNumbered(m.torder, c, m.nextMvt, |c.x|);
    mvts := ExecSteps(m.torder, c, m.nextMvt, |c.x|).value.mvts;
  }

  /** The messages of a cycle carry its number, which is the id of its first movement,
      and the id of the order that was inserted; the movements that they tell to be
      given and received are those of the cycle. */
  lemma CycleMessages(m: Market, o: Order, c: Tflow)
    requires IsDraft(c) && ExecuteCycle(m, o, c).Ok?
    ensures var m1, n := ExecuteCycle(m, o, c).value, |c.x|;
            && m1.nextMvt == m.nextMvt + n
            && |m1.tmsg| == |m.tmsg| + n && m1.tmsg[..|m.tmsg|] == m.tmsg
            && forall t :: |m.tmsg| <= t < |m1.tmsg| ==> NumberedAs(m1.tmsg[t], m.nextMvt, o.id, t - |m.tmsg|, n)
  {
    hide *;
    DraftHasNodes(c);
    var mvts := ExecutedSteps(m, o, c);
    var ms := Messages(mvts, m.nextMvt, o.id);
    forall t | |m.tmsg| <= t < |m.tmsg + ms|
      ensures NumberedAs((m.tmsg + ms)[t], m.nextMvt, o.id, t - |m.tmsg|, |c.x|)
    {
      MessageNumbers(mvts, m.nextMvt, o.id, t - |m.tmsg|);
    }
  }

  lemma DraftHasNodes(c: Tflow)
    requires IsDraft(c)
    ensures |c.x| >= 2
  {}

  /** The cycle, the order and the movements that message j names. */
  predicate NumberedAs(x: Message, first: int, orig: int, j: nat, n: nat)
    requires j < n
  {
    && x.cycle == first && x.orig == orig
    && x.mvt == x.from.id == first + Before(j, n) && x.to.id == first + Before(Before(j, n), n)
  }

  lemma MessageNumbers(mvts: seq<Movement>, first: int, orig: int, j: nat)
    requires j < |mvts| && Numbered(mvts, first)
    ensures NumberedAs(Messages(mvts, first, orig)[j], first, orig, j, |mvts|)
  {}

  // ---------------------------------------------------------------------------
  // What the messages of a cycle tell the new order

  lemma {:induction false} OneMessage(ms: seq<Message>, id: int, j: nat)
    requires j < |ms| && ms[j].orderId == id
    requires forall k :: 0 <= k < |ms| && k != j ==> ms[k].orderId != id
    ensures Gave(ms, id) == ms[j].from.qtt && Got(ms, id) == ms[j].to.qtt
  {
    var n := |ms| - 1;
    if j < n { OneMessage(ms[..n], id, j); } else { NoMessage(ms[..n], id); }
  }

  lemma {:induction false} NoMessage(ms: seq<Message>, id: int)
    requires forall k :: 0 <= k < |ms| ==> ms[k].orderId != id
    ensures Gave(ms, id) == 0 && Got(ms, id) == 0
  {
    if |ms| > 0 { NoMessage(ms[..|ms| - 1], id); }
  }

  lemma {:induction false} SumsAppend(a: seq<Message>, b: seq<Message>, id: int)
    ensures Gave(a + b, id) == Gave(a, id) + Gave(b, id) && Got(a + b, id) == Got(a, id) + Got(b, id)
  {
    if |b| == 0 {
      assert a + b == a;
    } else {
      assert (a + b)[..|a + b| - 1] == a + b[..|b| - 1];
      SumsAppend(a, b[..|b| - 1], id);
    }
  }

  /** Two nodes of a cycle are two orders. */
  lemma NodesDiffer(book: seq<Row>, c: Tflow, i: nat, j: nat, k: nat, l: nat)
    requires UniqueBook(book) && DistinctOids(c.x) && i < |c.x| && j < |c.x| && i != j
    requires NodeAt(book, c.x[i], k) && NodeAt(book, c.x[j], l)
    ensures c.x[i].id != c.x[j].id
  {
    OneRowIff(book, k, l);
    OtherStock(c.x, i, j);
  }

  lemma OneRowIff(book: seq<Row>, j: nat, k: nat)
    requires UniqueBook(book) && j < |book| && k < |book|
    ensures book[j].ord.id == book[k].ord.id <==> j == k
  {}

  lemma OtherStock(x: seq<Tfl>, i: nat, j: nat)
    requires DistinctOids(x) && i < |x| && j < |x| && i != j
    ensures x[i].oid != x[j].oid
  {}

  lemma ToldId(book: seq<Row>, c: Tflow, i: nat, m: Message) returns (k: nat)
    requires i < |c.x| && TellsNode(book, c, i, m)
    ensures NodeAt(book, c.x[i], k) && m.orderId == c.x[i].id
    ensures m.from.qtt == c.flowr[i] && m.to.qtt == c.flowr[Before(i, |c.x|)]
  {
    var p, s;
    k, p, s := TellsRows(book, c, i, m);
  }

  /** One message of a cycle is about the order of each node, and tells what it gives and
      receives. */
  lemma MessageOfNode(book: seq<Row>, c: Tflow, first: int, mvts: seq<Movement>, orig: int, i: nat, j: nat)
    requires UniqueBook(book) && |mvts| == |c.x| >= 2 && DistinctOids(c.x) && MovementsOf(book, c, first, mvts)
    requires i < |c.x| && j < |c.x|
    ensures var m := Messages(mvts, first, orig)[j];
            && (m.orderId == c.x[i].id <==> j == After(After(i, |c.x|), |c.x|))
            && (m.orderId == c.x[i].id ==> m.from.qtt == c.flowr[i] && m.to.qtt == c.flowr[Before(i, |c.x|)])
  {
    hide *;
    var n := |c.x|;
    var h := Before(Before(j, n), n);
    RoundTheCycle(j, n);
    RoundBack(i, n);
    ReceivesFromPredecessor(book, c, first, mvts, first, orig, h);
    var k := ToldId(book, c, h, Messages(mvts, first, orig)[j]);
    if h != i {
      ReceivesFromPredecessor(book, c, first, mvts, first, orig, i);
      var l := ToldId(book, c, i, Messages(mvts, first, orig)[After(After(i, n), n)]);
      NodesDiffer(book, c, h, i, k, l);
    }
  }

  lemma RoundBack(i: nat, n: nat)
    requires i < n
    ensures Before(Before(After(After(i, n), n), n), n) == i
  {}

  /** Each order of a cycle is told to give its flow and to receive that of the order
      before it. */
  lemma EachIsTold(m: Market, o: Order, stock: Stock, root: RootFunction, c: Tflow, i: nat)
    requires IsRoot(root) && Cached(root, o, stock, c) && i < |c.x|
    requires BookBacked(m.torder, stock) && UniqueBook(m.torder) && InTheBook(m.torder, c)
    ensures IsDraft(c) && ExecuteCycle(m, o, c).Ok?
    ensures var m1 := ExecuteCycle(m, o, c).value;
            && Gave(m1.tmsg, c.x[i].id) == Gave(m.tmsg, c.x[i].id) + c.flowr[i]
            && Got(m1.tmsg, c.x[i].id) == Got(m.tmsg, c.x[i].id) + c.flowr[Before(i, |c.x|)]
  {
    hide *;
    CachedParts(root, o, stock, c);
    CachedExecutes(root, o, stock, m.torder, c, m.nextMvt);
    var e := ExecuteFlow(m.torder, c, m.nextMvt).value;
    var n, ms := |c.x|, Messages(e.mvts, m.nextMvt, o.id);
    var t := After(After(i, n), n);
    forall j | 0 <= j < n
      ensures ms[j].orderId == c.x[i].id <==> j == t
      ensures j == t ==> ms[j].from.qtt == c.flowr[i] && ms[j].to.qtt == c.flowr[Before(i, n)]
    {
      MessageOfNode(m.torder, c, m.nextMvt, e.mvts, o.id, i, j);
    }
    OneMessage(ms, c.x[i].id, t);
    SumsAppend(m.tmsg, ms, c.x[i].id);
    ExecutedIs(m, o, c, e, ms);
  }

  /** So is the new order, which is the last one. */
  lemma LastIsTold(m: Market, o: Order, stock: Stock, root: RootFunction, c: Tflow)
    requires IsRoot(root) && Cached(root, o, stock, c)
    requires BookBacked(m.torder, stock) && UniqueBook(m.torder) && InTheBook(m.torder, c)
    ensures IsDraft(c) && ExecuteCycle(m, o, c).Ok?
    ensures var m1 := ExecuteCycle(m, o, c).value;
            && Gave(m1.tmsg, o.id) == Gave(m.tmsg, o.id) + Give(c)
            && Got(m1.tmsg, o.id) == Got(m.tmsg, o.id) + Receive(c)
  {
    hide *;
    CachedParts(root, o, stock, c);
    LastIsOrder(root, o, stock, c);
    EachIsTold(m, o, stock, root, c, |c.x| - 1);
    BeforeIs(|c.x| - 1, |c.x|);
    GiveIs(c);
  }

  lemma LastIsOrder(root: RootFunction, o: Order, stock: Stock, c: Tflow)
    requires IsRoot(root) && Cached(root, o, stock, c)
    ensures |c.x| >= 1 && c.x[|c.x| - 1].id == o.id
  {
    hide Recorded, Backed;
  }

  lemma GiveIs(c: Tflow)
    requires |c.x| >= 2
    ensures Give(c) == c.flowr[|c.x| - 1] && Receive(c) == c.flowr[|c.x| - 2]
  {}

  // ---------------------------------------------------------------------------
  // What a loop tells

  lemma TellsItself(m: Market)
    ensures Tells(m, m)
  {
    hide Honest, Drawn;
  }

  lemma HonestInShape(a: seq<Row>, b: seq<Row>, m: Message)
    requires SameShape(a, b)
    ensures Honest(a, m) <==> Honest(b, m)
  {
    if k: nat :| HonestAt(a, m, k) { assert HonestAt(b, m, k); }
    if k: nat :| HonestAt(b, m, k) { assert HonestAt(a, m, k); }
  }

  lemma AllHonestInShape(a: seq<Row>, b: seq<Row>, ms: seq<Message>)
    requires SameShape(a, b)
    ensures AllHonest(a, ms) <==> AllHonest(b, ms)
  {
    hide Honest, SameShape;
    forall j | 0 <= j < |ms|
      ensures Honest(a, ms[j]) <==> Honest(b, ms[j])
    {
      HonestInShape(a, b, ms[j]);
    }
  }

  lemma TellsThrough(m: Market, m1: Market, m2: Market)
    requires Tells(m, m1) && Tells(m1, m2)
    ensures Tells(m, m2)
  {
    AllHonestInShape(m.torder, m1.torder, m1.tmsg);
    AllHonestInShape(m.torder, m1.torder, m2.tmsg);
    ShapeThrough(m.torder, m1.torder, m2.torder);
    hide AllHonest, Drawn;
    forall k | 0 <= k < |m.torder|
      ensures SameSum(m, m2, k)
    {
      assert SameSum(m, m1, k) && SameSum(m1, m2, k);
    }
  }

  /** The best row of a fresh table is a cycle of the book. */
  lemma BestIsSound(root: RootFunction, book: seq<Row>, n: nat, now: int, tmp: seq<Tflow>, best: Tflow)
    requires IsRoot(root) && ValidBook(book) && Fresh(root, book, n, now, tmp) && best in tmp
    ensures n < |book| && SoundCycle(root, book, book[n].ord, now, best)
  {
    hide *;
    FreshParts(root, book, n, now, tmp);
    var j :| 0 <= j < |tmp| && tmp[j] == best;
    TableAt(root, book, n, now, tmp, j);
    InBookUnique(book, n);
    FcreateTmpSound(root, book, book[n].ord, now);
    InTmpIsSound(root, book, book[n].ord, now, best);
  }

  /** The totals that a loop has added up are what the messages tell the order to have
      received and given. */
  predicate TotalsTold(m: Market, t: Totals, id: int, e: Outcome) {
    && e.totals.give - t.give == Gave(e.market.tmsg, id) - Gave(m.tmsg, id)
    && e.totals.reci - t.reci == Got(e.market.tmsg, id) - Got(m.tmsg, id)
  }

  lemma NothingTold(m: Market, t: Totals, id: int, done: seq<Tflow>)
    ensures TotalsTold(m, t, id, Outcome(m, t, done))
  {}

  lemma ToldThrough(m: Market, m1: Market, t: Totals, c: Tflow, id: int, e: Outcome)
    requires |c.x| >= 2 && AddUp(t, c).Ok? && TotalsTold(m1, AddUp(t, c).value, id, e)
    requires Gave(m1.tmsg, id) == Gave(m.tmsg, id) + Give(c) && Got(m1.tmsg, id) == Got(m.tmsg, id) + Receive(c)
    ensures TotalsTold(m, t, id, e)
  {
    hide Gave, Got;
  }

  /** The whole loop adds honest messages, and they tell what it takes from each
      stock, and what the order inserted receives and gives. */
  lemma {:induction false} LoopTells(root: RootFunction, m: Market, o: Order, n: nat, now: int, stock: Stock,
                                     tmp: seq<Tflow>, moved: nat, t: Totals, done: seq<Tflow>)
    requires IsRoot(root) && Fresh(root, m.torder, n, now, tmp) && Coherent(root, m.torder, o, stock, tmp)
    requires AllExecutable(tmp) && n < |m.torder| && SameOrder(o, m.torder[n].ord)
    ensures var r := InsertLoop(root, m, o, tmp, moved, t, done);
            r.Ok? ==> Tells(m, r.value.market) && TotalsTold(m, t, o.id, r.value)
    decreases |tmp|
  {
    hide *;
    var best := Best(root, tmp);
    if tmp == [] || moved + |best.x| > MAXMVTPERTRANS {
      InsertLoopStops(root, m, o, tmp, moved, t, done);
      TellsItself(m);
      NothingTold(m, t, o.id, done);
    } else {
      BestIsDraft(root, tmp);
      var cur := m.torder[n].ord;
      CoherentParts(root, m.torder, o, stock, tmp);
      CoherentSame(root, m.torder, o, cur, stock, tmp);
      RoundKeepsFresh(root, m.torder, n, now, stock, tmp, best);
      RoundOnMarket(root, m, o, stock, tmp, best);
      BestIsSound(root, m.torder, n, now, tmp, best);
      BestInTheBook(m.torder, tmp, best);
      ValidIsUnique(m.torder);
      CycleTells(root, m, o, n, now, stock, best);
      DebitedSame(m.torder, best, n);
      DebitedLength(m.torder, best);
      var b, ds := DebitBook(m.torder, best), Drafts(UpdateAll(root, tmp, best, false).value);
      SameThrough(o, cur, b[n].ord);
      InsertLoopTurn(root, m, o, tmp, moved, t, done);
      var m1, t1 := ExecuteCycle(m, o, best).value, AddUp(t, best);
      if t1.Ok? {
        LoopTells(root, m1, o, n, now, Debit(stock, best), ds, moved + |best.x|, t1.value, done + [best]);
        var r := InsertLoop(root, m1, o, ds, moved + |best.x|, t1.value, done + [best]);
        if r.Ok? {
          TellsThrough(m, m1, r.value.market);
          LastIsTold(m, o, stock, root, best);
          ToldThrough(m, m1, t, best, o.id, r.value);
        }
      }
    }
  }

  /** An insertion adds honest messages, and they tell what it takes from each stock, and
      what the new order receives and gives. */
  lemma InsertionTells(root: RootFunction, m: Market, r: Row, now: int)
    requires IsRoot(root) && ValidBook(m.torder) && NewOrder(m.torder, r.ord)
    requires InsertOrder(root, m, r, now).Ok?
    ensures var e := InsertOrder(root, m, r, now).value;
            Tells(m.(torder := m.torder + [r]), e.market) && TotalsTold(m, NOTHING, r.ord.id, e)
  {
    hide *;
    var b := m.torder + [r];
    NewTable(root, m.torder, r, now);
    InsertedOnlyIf(root, m, r, now);
    NewTableCoherent(root, m.torder, r, now);
    NewTableExecutable(root, m.torder, r, now);
    var tmp := FcreateTmp(root, b, r.ord, now).value;
    assert b[|m.torder|] == r;
    FreshIf(root, b, |m.torder|, now, tmp);
    SameItself(r.ord);
    NothingYet();
    LoopTells(root, m.(torder := b), r.ord, |m.torder|, now, StockOf(b), tmp, 0, NOTHING, []);
    InsertOrderIsLoop(root, m, r, now);
    SameMessages(m, b, NOTHING, r.ord.id, InsertOrder(root, m, r, now).value);
  }

  lemma SameMessages(m: Market, b: seq<Row>, t: Totals, id: int, e: Outcome)
    requires TotalsTold(m.(torder := b), t, id, e)
    ensures TotalsTold(m, t, id, e)
  {}

  lemma InsertedOnlyIf(root: RootFunction, m: Market, r: Row, now: int)
    requires IsRoot(root) && ValidBook(m.torder) && NewOrder(m.torder, r.ord)
    requires InsertOrder(root, m, r, now).Ok?
    ensures FcreateTmp(root, m.torder + [r], r.ord, now).Ok?
  {
    hide FcreateTmp, ValidBook, NewOrder, InsertLoop;
  }

  lemma InsertOrderIsLoop(root: RootFunction, m: Market, r: Row, now: int)
    requires IsRoot(root) && ValidBook(m.torder) && NewOrder(m.torder, r.ord)
    requires FcreateTmp(root, m.torder + [r], r.ord, now).Ok?
    requires AllExecutable(FcreateTmp(root, m.torder + [r], r.ord, now).value)
    requires InsertOrder(root, m, r, now).Ok?
    ensures InsertLoop(root, m.(torder := m.torder + [r]), r.ord,
                       FcreateTmp(root, m.torder + [r], r.ord, now).value, 0, NOTHING, [])
            == InsertOrder(root, m, r, now)
  {
    hide FcreateTmp, ValidBook, NewOrder, InsertLoop, AllExecutable, AboveLimit;
  }

  // ---------------------------------------------------------------------------
  // Whole runs

  /** Every order owns its stock, what is left of it and what the messages tell to have
      been taken make the whole, and all messages are honest. */
  ghost predicate Accounts(m: Market) {
    && AllHonest(m.torder, m.tmsg)
    && forall k :: 0 <= k < |m.torder| ==> Balanced(m, k)
  }

  predicate Balanced(m: Market, k: nat)
    requires k < |m.torder|
  {
    var o := m.torder[k].ord;
    o.id == o.oid && o.qtt + Drawn(m.tmsg, o.oid) == o.qttProv
  }

  lemma HonestLater(book: seq<Row>, r: Row, ms: seq<Message>)
    requires AllHonest(book, ms)
    ensures AllHonest(book + [r], ms)
  {
    forall j | 0 <= j < |ms|
      ensures Honest(book + [r], ms[j])
    {
      assert Honest(book, ms[j]);
      var k: nat :| HonestAt(book, ms[j], k);
      assert HonestAt(book + [r], ms[j], k);
    }
  }

  /** No message is about a stock that is not in the book. */
  lemma {:induction false} NothingDrawn(book: seq<Row>, ms: seq<Message>, oid: int)
    requires AllHonest(book, ms) && forall k :: 0 <= k < |book| ==> book[k].ord.oid != oid
    ensures Drawn(ms, oid) == 0
  {
    if |ms| > 0 {
      var n := |ms| - 1;
      assert Honest(book, ms[n]);
      assert forall j :: 0 <= j < n ==> ms[..n][j] == ms[j];
      NothingDrawn(book, ms[..n], oid);
    }
  }

  lemma InsertedBalances(m: Market, r: Row)
    requires Accounts(m) && r.ord.id == r.ord.oid && r.ord.qtt == r.ord.qttProv
    requires forall k :: 0 <= k < |m.torder| ==> m.torder[k].ord.oid != r.ord.oid
    ensures Accounts(m.(torder := m.torder + [r]))
  {
    HonestLater(m.torder, r, m.tmsg);
    NothingDrawn(m.torder, m.tmsg, r.ord.oid);
    hide AllHonest, Drawn;
    var m1 := m.(torder := m.torder + [r]);
    forall k | 0 <= k < |m1.torder|
      ensures Balanced(m1, k)
    {
      if k < |m.torder| { assert Balanced(m, k); }
    }
  }

  lemma TellsBalances(m: Market, m1: Market)
    requires Accounts(m) && Tells(m, m1)
    ensures Accounts(m1)
  {
    AllHonestInShape(m.torder, m1.torder, m1.tmsg);
    hide AllHonest, Drawn;
    forall k | 0 <= k < |m1.torder|
      ensures Balanced(m1, k)
    {
      assert Balanced(m, k) && SameSum(m, m1, k);
    }
  }

  lemma EntryStands(m: Market, e: Entry)
    requires ReadyFor(m, e.id)
    ensures var o := RowOfEntry(e).ord;
            && o.id == o.oid && o.qtt == o.qttProv
            && forall k :: 0 <= k < |m.torder| ==> m.torder[k].ord.oid != o.oid
  {}

  /** What a primitive leaves: its row, if it is an order, and the accounts. */
  lemma ExecuteAccounts(root: RootFunction, m: Market, e: Entry, now: int)
    requires IsRoot(root) && ReadyFor(m, e.id) && Accounts(m) && Execute(root, m, e, now).Ok?
    ensures var m1 := Execute(root, m, e, now).value;
            Accounts(m1) && SameShape(m.torder + RowsOfEntry(e), m1.torder)
  {
    hide *;
    ExecuteIs(root, m, e, now);
    ReadyIsValid(m, e.id);
    if e.isOrder {
      var r := RowOfEntry(e);
      InsertionTells(root, m, r, now);
      EntryStands(m, e);
      InsertedBalances(m, r);
      var m1 := InsertOrder(root, m, r, now).value.market;
      TellsBalances(m.(torder := m.torder + [r]), m1);
      TellsShape(m.(torder := m.torder + [r]), m1);
    } else {
      assert m.torder + [] == m.torder;
      ShapeOfItself(m.torder);
    }
    RowsAre(e);
  }

  lemma TellsShape(m: Market, m1: Market)
    requires Tells(m, m1)
    ensures SameShape(m.torder, m1.torder)
  {}

  lemma RowsAre(e: Entry)
    ensures RowsOfEntry(e) == if e.isOrder then [RowOfEntry(e)] else []
  {}

  /** The rows that a primitive brings. */
  function RowsOfEntry(e: Entry): seq<Row> {
    if e.isOrder then [RowOfEntry(e)] else []
  }

  /** The rows that a run brings, as they were submitted. */
  function RowsOf(es: seq<Execution>): seq<Row> {
    if |es| == 0 then [] else RowsOf(es[..|es| - 1]) + RowsOfEntry(es[|es| - 1].entry)
  }

  lemma ShapeAppend(a: seq<Row>, b: seq<Row>, r: seq<Row>, c: seq<Row>)
    requires SameShape(a, b) && SameShape(b + r, c)
    ensures SameShape(a + r, c)
  {}

  lemma EmptyAccounts()
    ensures Accounts(NO_MARKET) && SameShape([], NO_MARKET.torder)
  {}

  /** The book of a run holds the rows that were submitted, and its accounts are right. */
  lemma {:induction false} RunAccounts(root: RootFunction, n: int, es: seq<Execution>)
    requires IsRoot(root) && ReadyFor(NO_MARKET, n) && Increasing(es, n) && Runs.Run(root, NO_MARKET, n, es).Ok?
    ensures var m := Runs.Run(root, NO_MARKET, n, es).value;
            Accounts(m) && SameShape(RowsOf(es), m.torder)
  {
    hide Accounts, IsRoot, Execute, ReadyFor, SameShape;
    if |es| == 0 {
      EmptyAccounts();
    } else {
      var init, e := es[..|es| - 1], es[|es| - 1];
      IncreasingInit(es, n);
      RunAccounts(root, n, init);
      var before := Runs.Run(root, NO_MARKET, n, init).value;
      ReadyLater(before, NextId(init, n), e.entry.id);
      ExecuteAccounts(root, before, e.entry, e.now);
      ShapeAppend(RowsOf(init), before.torder, RowsOfEntry(e.entry), Runs.Run(root, NO_MARKET, n, es).value.torder);
    }
  }

  /** The messages of an order: they draw on its stock, within its limit. */
  lemma {:induction false} OrderKeepsLimit(book: seq<Row>, ms: seq<Message>, k: nat)
    requires UniqueBook(book) && AllHonest(book, ms) && k < |book|
    requires forall j :: 0 <= j < |book| ==> book[j].ord.id == book[j].ord.oid
    ensures var o := book[k].ord;
            && Gave(ms, o.id) == Drawn(ms, o.oid) >= 0 && Got(ms, o.id) >= 0
            && (OrderType(o.kind) == ORDER_LIMIT ==> WithinLimit(o, Gave(ms, o.id), Got(ms, o.id)))
  {
    var o := book[k].ord;
    if |ms| > 0 {
      var n := |ms| - 1;
      assert Honest(book, ms[n]);
      assert forall j :: 0 <= j < n ==> ms[..n][j] == ms[j];
      OrderKeepsLimit(book, ms[..n], k);
      var j: nat :| HonestAt(book, ms[n], j);
      hide WithinLimit, Honest;
      if ms[n].orderId == o.id {
        OneRow(book, j, k);
        if OrderType(o.kind) == ORDER_LIMIT {
          Mediant(o, Gave(ms[..n], o.id), Got(ms[..n], o.id), ms[n].from.qtt, ms[n].to.qtt);
        }
      }
    } else {
      NothingWithin(o);
    }
  }

  lemma NothingWithin(o: Order)
    ensures WithinLimit(o, 0, 0)
  {}

  /** The row of an order, in the terms of its submission; it can be found for a day. */
  ghost predicate RowTells(r: Row, e: Entry) {
    && r.usr == e.usr && r.owner == e.owner
    && r.ord.id == r.ord.oid == e.id && r.ord.own == e.wid
    && r.ord.qttRequ == e.qttRequ && r.ord.quaRequ == e.quaRequ
    && r.ord.qttProv == e.qttProv && r.ord.quaProv == e.quaProv
    && OrderType(r.ord.kind) == (if e.isLimit then 1 else 2) && r.ord.kind < 4
    && r.deadline == Some(e.submitted + 86400)
  }

  /** A message to the user of an order, in the terms of its submission: it gives of what
      it provides, and receives of what it asks for, within its limit. */
  ghost predicate MessageTells(m: Message, e: Entry) {
    && m.usr == m.stock.usr == e.usr && m.stock.own == e.owner && m.stock.id == e.id
    && m.isLimit == e.isLimit && m.qttProv == e.qttProv && m.qttRequ == e.qttRequ
    && m.from.nature == m.stock.nature == e.quaProv && Meets(m.to.nature, e.quaRequ)
    && m.from.qtt > 0 && m.to.qtt > 0
    && (e.isLimit ==> m.from.qtt * e.qttRequ <= e.qttProv * m.to.qtt)
  }

  /** What a market owes to an order that was inserted, whose row is row k. */
  ghost predicate Accounted(m: Market, e: Entry, k: nat) {
    && k < |m.torder| && RowTells(m.torder[k], e)
    && (forall j :: 0 <= j < |m.tmsg| && m.tmsg[j].orderId == e.id ==> MessageTells(m.tmsg[j], e))
    && var give, receive := Gave(m.tmsg, e.id), Got(m.tmsg, e.id);
       && m.torder[k].ord.qtt + give == e.qttProv && give >= 0 && receive >= 0
       && (e.isLimit ==> give * e.qttRequ <= e.qttProv * receive)
  }

  lemma {:induction false} RowIndex(es: seq<Execution>, i: nat) returns (k: nat)
    requires i < |es| && es[i].entry.isOrder
    ensures k < |RowsOf(es)| && RowsOf(es)[k] == RowOfEntry(es[i].entry)
  {
    var n := |es| - 1;
    if i < n {
      k := RowIndex(es[..n], i);
    } else {
      k := |RowsOf(es[..n])|;
    }
  }

  lemma RowOfOrder(rows: seq<Row>, book: seq<Row>, e: Entry, k: nat)
    requires SameShape(rows, book) && k < |rows| && rows[k] == RowOfEntry(e)
    ensures k < |book| && RowTells(book[k], e) && book[k].ord.id == e.id
    ensures OrderType(book[k].ord.kind) == ORDER_LIMIT <==> e.isLimit
  {}

  lemma MessagesOfOrder(book: seq<Row>, ms: seq<Message>, e: Entry, k: nat)
    requires UniqueBook(book) && AllHonest(book, ms) && k < |book| && RowTells(book[k], e)
    ensures forall j :: 0 <= j < |ms| && ms[j].orderId == e.id ==> MessageTells(ms[j], e)
  {
    hide UniqueBook, Meets;
    forall j | 0 <= j < |ms| && ms[j].orderId == e.id
      ensures MessageTells(ms[j], e)
    {
      assert Honest(book, ms[j]);
      var i: nat :| HonestAt(book, ms[j], i);
      OneRow(book, i, k);
    }
  }

  lemma BalancedAt(m: Market, k: nat)
    requires Accounts(m) && k < |m.torder|
    ensures AllHonest(m.torder, m.tmsg) && Balanced(m, k)
    ensures forall j :: 0 <= j < |m.torder| ==> m.torder[j].ord.id == m.torder[j].ord.oid
  {
    hide AllHonest, Drawn;
    forall j | 0 <= j < |m.torder|
      ensures m.torder[j].ord.id == m.torder[j].ord.oid
    {
      assert Balanced(m, j);
    }
  }

  /** Over every run from the empty market, for each order ever inserted, in the terms
      of its submission: its row is in the book; every message of its id tells these
      terms, and that it receives what it asks for; what is left of its stock and what
      the messages tell it to have given make what it submitted; and if it is LIMIT,
      over all the cycles of the run together, its own and those of later orders, it
      gives at most its price for what it receives. */
  lemma OrdersAccount(root: RootFunction, n: int, es: seq<Execution>, i: nat)
    requires IsRoot(root) && ReadyFor(NO_MARKET, n) && Increasing(es, n) && Runs.Run(root, NO_MARKET, n, es).Ok?
    requires i < |es| && es[i].entry.isOrder
    ensures exists k: nat :: Accounted(Runs.Run(root, NO_MARKET, n, es).value, es[i].entry, k)
  {
    hide *;
    RunAccounts(root, n, es);
    RunConserves(root, NO_MARKET, n, es, "");
    var m, e := Runs.Run(root, NO_MARKET, n, es).value, es[i].entry;
    var k := RowIndex(es, i);
    RowOfOrder(RowsOf(es), m.torder, e, k);
    ValidIsUnique(m.torder);
    BalancedAt(m, k);
    OrderKeepsLimit(m.torder, m.tmsg, k);
    MessagesOfOrder(m.torder, m.tmsg, e, k);
    AccountedIf(m, e, k);
  }

  lemma AccountedIf(m: Market, e: Entry, k: nat)
    requires k < |m.torder| && RowTells(m.torder[k], e) && Balanced(m, k)
    requires forall j :: 0 <= j < |m.tmsg| && m.tmsg[j].orderId == e.id ==> MessageTells(m.tmsg[j], e)
    requires var o := m.torder[k].ord;
             && Gave(m.tmsg, o.id) == Drawn(m.tmsg, o.oid) >= 0 && Got(m.tmsg, o.id) >= 0
             && (OrderType(o.kind) == ORDER_LIMIT ==> WithinLimit(o, Gave(m.tmsg, o.id), Got(m.tmsg, o.id)))
    ensures Accounted(m, e, k)
  {
    hide Gave, Got, Drawn, MessageTells;
  }

  /** An order is found in the searches made before its day is over, and in no later one. */
  lemma FoundForADay(m: Market, e: Entry, k: nat, t: int)
    requires Accounted(m, e, k) && UniqueBook(m.torder)
    ensures InBook(m.torder, t, m.torder[k].ord) <==> t < e.submitted + 86400
  {
    hide Gave, Got, MessageTells;
    var o := m.torder[k].ord;
    if InBook(m.torder, t, o) {
      var j :| 0 <= j < |m.torder| && m.torder[j].ord == o
               && (m.torder[j].deadline == None || t < m.torder[j].deadline.value);
      OneRow(m.torder, j, k);
    }
  }
}
