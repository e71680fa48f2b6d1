/** Nothing is created or lost by the execution of a cycle. */
module Conservation {
  import opened FlowTypes
  import opened Orders
  import opened Search
  import opened Book
  import opened Settlement
  import opened Exchange
  import opened MarketRuns

  /** What remains of a quality in the stocks of the book, each counted once, with
      the order that owns it. */
  function Remaining(book: seq<Row>, q: string): nat {
    if |book| == 0 then 0
    else
      var r := book[|book| - 1];
      Remaining(book[..|book| - 1], q) + if IsParent(r) && r.ord.quaProv == q then r.ord.qtt else 0
  }

  /** What the messages tell to have been given of a quality. */
  function Moved(ms: seq<Message>, q: string): int {
    if |ms| == 0 then 0
    else Moved(ms[..|ms| - 1], q) + if ms[|ms| - 1].from.nature == q then ms[|ms| - 1].from.qtt else 0
  }

  /** What movements give of a quality. */
  function MovedBy(mvts: seq<Movement>, q: string): int {
    if |mvts| == 0 then 0
    else MovedBy(mvts[..|mvts| - 1], q) + if mvts[|mvts| - 1].nature == q then mvts[|mvts| - 1].qtt else 0
  }

  lemma MovedBySnoc(mvts: seq<Movement>, m: Movement, q: string)
    ensures MovedBy(mvts + [m], q) == MovedBy(mvts, q) + if m.nature == q then m.qtt else 0
  {
    assert (mvts + [m])[..|mvts|] == mvts;
  }

  /** The same rows in the same places, but for what remains in the stocks. */
  ghost predicate SameShape(a: seq<Row>, b: seq<Row>) {
    |a| == |b| && forall k :: 0 <= k < |a| ==> b[k] == a[k].(ord := a[k].ord.(qtt := b[k].ord.qtt))
  }

  /** Taking from a stock changes what remains only where its owner is. */
  lemma {:induction false} TakeRemaining(book: seq<Row>, oid: int, x: nat, q: string, n: nat, p: int)
    requires UniqueBook(book) && CanTakeFrom(book, oid, x) && ParentAt(book, oid, p) && n <= |book|
    ensures Remaining(Take(book, oid, x)[..n], q) ==
            Remaining(book[..n], q) - if p < n && book[p].ord.quaProv == q then x else 0
  {
    if n > 0 {
      TakeRemaining(book, oid, x, q, n - 1, p);
      var t := Take(book, oid, x);
      RemainingTake(t, q, n - 1);
      RemainingTake(book, q, n - 1);
      if n - 1 != p { OtherOwner(book, oid, n - 1, p); }
      hide Remaining, UniqueBook;
    }
  }

  lemma RemainingTake(book: seq<Row>, q: string, n: nat)
    requires n < |book|
    ensures Remaining(book[..n + 1], q) ==
            Remaining(book[..n], q) + if IsParent(book[n]) && book[n].ord.quaProv == q then book[n].ord.qtt else 0
  {
    assert book[..n + 1][..n] == book[..n];
  }

  /** A stock has one owner. */
  lemma OtherOwner(book: seq<Row>, oid: int, k: nat, p: int)
    requires UniqueBook(book) && ParentAt(book, oid, p) && k < |book| && k != p
    ensures IsParent(book[k]) ==> book[k].ord.oid != oid
  {
    if k < p { assert book[k].ord.id != book[p].ord.id; } else { assert book[p].ord.id != book[k].ord.id; }
  }

  lemma TakeKeepsShape(book: seq<Row>, oid: int, x: nat)
    requires CanTakeFrom(book, oid, x)
    ensures SameShape(book, Take(book, oid, x))
  {}

  lemma TakeStockTakes(book: seq<Row>, oid: int, x: nat)
    requires TakeStock(book, oid, x).Ok?
    ensures CanTakeFrom(book, oid, x) && TakeStock(book, oid, x).value.0 == Take(book, oid, x)
  {}

  /** One step: what is taken from the stock is what the movement gives. */
  lemma StepConserves(was: seq<Row>, book: seq<Row>, b: Tfl, x: nat, q: string)
    requires ValidBook(was) && SameShape(was, book) && NodeIn(was, b)
    requires TakeStock(book, b.oid, x).Ok?
    ensures var t := TakeStock(book, b.oid, x).value.0;
            && SameShape(was, t)
            && RowOf(t, b.id).Some?
            && Remaining(t, q) == Remaining(book, q) - if RowOf(t, b.id).value.ord.quaProv == q then x else 0
  {
    hide *;
    var k, p := NodeAndParent(was, b);
    ShapeKeeps(was, book, b, k, p);
    TakeStockTakes(book, b.oid, x);
    var t := Take(book, b.oid, x);
    TakeKeepsShape(book, b.oid, x);
    ShapeKeeps(book, t, b, k, p);
    TakeRemainingAll(book, b.oid, x, q, p);
    RowOfAt(t, k);
    NodeFound(t, b, k);
    ShapeThrough(was, book, t);
    assert t[k].ord.quaProv == was[k].ord.quaProv == was[p].ord.quaProv == book[p].ord.quaProv by {
      SameQuality(was, book, k);
      SameQuality(book, t, k);
      SameQuality(was, book, p);
    }
  }

  lemma NodeAndParent(was: seq<Row>, b: Tfl) returns (k: nat, p: int)
    requires ValidBook(was) && NodeIn(was, b)
    ensures NodeAt(was, b, k) && k < |was| && ParentAt(was, b.oid, p) && 0 <= p < |was| && UniqueBook(was)
    ensures was[k].ord.quaProv == was[p].ord.quaProv
  {
    k :| NodeAt(was, b, k);
    assert HasParent(was, was[k].ord.oid);
    p :| ParentAt(was, was[k].ord.oid, p);
  }

  lemma ShapeKeeps(a: seq<Row>, t: seq<Row>, b: Tfl, k: nat, p: int)
    requires SameShape(a, t) && NodeAt(a, b, k) && ParentAt(a, b.oid, p) && UniqueBook(a)
    ensures |a| == |t| && NodeAt(t, b, k) && k < |t| && ParentAt(t, b.oid, p) && 0 <= p < |t| && UniqueBook(t)
  {}

  lemma ShapeThrough(a: seq<Row>, b: seq<Row>, c: seq<Row>)
    requires SameShape(a, b) && SameShape(b, c)
    ensures SameShape(a, c)
  {}

  lemma SameQuality(a: seq<Row>, b: seq<Row>, k: int)
    requires SameShape(a, b) && 0 <= k < |a|
    ensures |a| == |b| && a[k].ord.quaProv == b[k].ord.quaProv
  {}

  lemma NodeFound(t: seq<Row>, b: Tfl, k: nat)
    requires NodeAt(t, b, k)
    ensures k < |t| && t[k].ord.id == b.id
  {}

  lemma TakeRemainingAll(book: seq<Row>, oid: int, x: nat, q: string, p: int)
    requires UniqueBook(book) && CanTakeFrom(book, oid, x) && ParentAt(book, oid, p)
    ensures 0 <= p < |book|
    ensures Remaining(Take(book, oid, x), q) ==
            Remaining(book, q) - if book[p].ord.quaProv == q then x else 0
  {
    hide Remaining, UniqueBook;
    TakeRemaining(book, oid, x, q, |book|, p);
    assert Take(book, oid, x)[..|book|] == Take(book, oid, x) && book[..|book|] == book;
  }

  lemma {:induction false} ExecStepsConserve(book: seq<Row>, c: Tflow, first: int, k: nat, q: string)
    requires ValidBook(book) && IsDraft(c) && InTheBook(book, c) && k <= |c.x|
    requires ExecSteps(book, c, first, k).Ok?
    ensures var e := ExecSteps(book, c, first, k).value;
            SameShape(book, e.book) && Remaining(e.book, q) + MovedBy(e.mvts, q) == Remaining(book, q)
  {
    hide ValidBook, Remaining, TakeStock, RowOf, SameShape, NodeIn;
    if k == 0 {
      ShapeOfItself(book);
    } else {
      ExecStepsConserve(book, c, first, k - 1, q);
      var e := ExecSteps(book, c, first, k - 1).value;
      var i := Before(k - 1, |c.x|);
      StepConserves(book, e.book, c.x[i], c.flowr[i], q);
      var t := TakeStock(e.book, c.x[i].oid, c.flowr[i]).value.0;
      var row := RowOf(t, c.x[i].id).value;
      MovedBySnoc(e.mvts, Movement(first + k - 1, c.flowr[i], row.ord.quaProv, row.owner, row.usr, row.ord), q);
    }
  }

  lemma ShapeOfItself(book: seq<Row>)
    ensures SameShape(book, book)
  {}

  lemma {:induction false} MovedAppend(a: seq<Message>, b: seq<Message>, q: string)
    ensures Moved(a + b, q) == Moved(a, q) + Moved(b, q)
  {
    if |b| == 0 {
      assert a + b == a;
    } else {
      assert (a + b)[..|a + b| - 1] == a + b[..|b| - 1];
      MovedAppend(a, b[..|b| - 1], q);
    }
  }

  /** The messages up to round k tell the movement of the last node and those of
      the nodes before k - 1. */
  lemma {:induction false} MovedRotated(mvts: seq<Movement>, grp: int, orig: int, q: string, k: nat)
    requires 1 <= k <= |mvts|
    ensures Moved(Messages(mvts, grp, orig)[..k], q) ==
            MovedBy(mvts[..k - 1], q)
            + if mvts[|mvts| - 1].nature == q then mvts[|mvts| - 1].qtt else 0
  {
    var ms := Messages(mvts, grp, orig);
    hide *;
    MovedTake(ms, k - 1, q);
    MessageGives(mvts, grp, orig, k - 1);
    BeforeIs(k - 1, |mvts|);
    if k == 1 {
      MovedNone(ms[..0], mvts[..0], q);
    } else {
      MovedRotated(mvts, grp, orig, q, k - 1);
      MovedByTake(mvts, k - 2, q);
    }
  }

  lemma MovedNone(ms: seq<Message>, mvts: seq<Movement>, q: string)
    requires ms == [] && mvts == []
    ensures Moved(ms, q) == 0 && MovedBy(mvts, q) == 0
  {}

  lemma MovedTake(ms: seq<Message>, k: nat, q: string)
    requires k < |ms|
    ensures Moved(ms[..k + 1], q) == Moved(ms[..k], q) + if ms[k].from.nature == q then ms[k].from.qtt else 0
  {
    assert ms[..k + 1][..k] == ms[..k];
  }

  lemma MovedByTake(mvts: seq<Movement>, k: nat, q: string)
    requires k < |mvts|
    ensures MovedBy(mvts[..k + 1], q) == MovedBy(mvts[..k], q) + if mvts[k].nature == q then mvts[k].qtt else 0
  {
    assert mvts[..k + 1][..k] == mvts[..k];
  }

  /** The messages of a cycle tell each of its movements once. */
  lemma MessagesTellMovements(mvts: seq<Movement>, grp: int, orig: int, q: string)
    requires |mvts| >= 1
    ensures Moved(Messages(mvts, grp, orig), q) == MovedBy(mvts, q)
  {
    var ms, n := Messages(mvts, grp, orig), |mvts|;
    MovedRotated(mvts, grp, orig, q, n);
    assert ms[..n] == ms;
  }

  /** What is in the market of a quality: what remains and what has been moved. */
  function Held(m: Market, q: string): int {
    Remaining(m.torder, q) + Moved(m.tmsg, q)
  }

  /** A cycle executed on a market changes neither. */
  lemma CycleConserves(m: Market, o: Order, c: Tflow, q: string)
    requires ValidBook(m.torder) && IsDraft(c) && InTheBook(m.torder, c) && ExecuteCycle(m, o, c).Ok?
    ensures Held(ExecuteCycle(m, o, c).value, q) == Held(m, q)
  {
    hide ValidBook, Remaining, Moved, MovedBy, ExecSteps, InTheBook;
    ExecStepsConserve(m.torder, c, m.nextMvt, |c.x|, q);
    var e := ExecSteps(m.torder, c, m.nextMvt, |c.x|).value;
    MessagesTellMovements(e.mvts, m.nextMvt, o.id, q);
    MovedAppend(m.tmsg, Messages(e.mvts, m.nextMvt, o.id), q);
  }
}
