/** Execution of a cycle on the order book. */
module Book {
  import opened FlowTypes
  import opened Orders
  import opened Search

  // ---------------------------------------------------------------------------
  // Stocks of the book

  predicate HasOid(book: seq<Row>, oid: int) {
    exists k :: 0 <= k < |book| && book[k].ord.oid == oid
  }

  /** All the orders with this stock hold the same quantity of it. */
  predicate SameStock(book: seq<Row>, oid: int) {
    forall i, j :: 0 <= i < |book| && 0 <= j < |book| && book[i].ord.oid == oid && book[j].ord.oid == oid ==>
      book[i].ord.qtt == book[j].ord.qtt
  }

  /** The quantity held by the first order with this stock. */
  function StockAt(book: seq<Row>, oid: int): (q: Remainder)
    requires HasOid(book, oid)
    ensures exists k :: 0 <= k < |book| && book[k].ord.oid == oid && q == book[k].ord.qtt
  {
    if book[0].ord.oid == oid then book[0].ord.qtt
    else
      assert HasOid(book[1..], oid) by {
        var k :| 0 <= k < |book| && book[k].ord.oid == oid;
        assert book[1..][k - 1] == book[k];
      }
      StockAt(book[1..], oid)
  }

  /** A row after q has been taken from the stock oid. */
  function TakeRow(r: Row, oid: int, q: nat): Row
    requires r.ord.oid == oid ==> r.ord.qtt >= q
  {
    if r.ord.oid == oid then r.(ord := r.ord.(qtt := r.ord.qtt - q)) else r
  }

  /** Every order with this stock has at least q of it. */
  predicate CanTakeFrom(book: seq<Row>, oid: int, q: nat) {
    forall k :: 0 <= k < |book| && book[k].ord.oid == oid ==> book[k].ord.qtt >= q
  }

  function Take(book: seq<Row>, oid: int, q: nat): (b: seq<Row>)
    requires CanTakeFrom(book, oid, q)
    ensures |b| == |book| && forall k :: 0 <= k < |book| ==> b[k] == TakeRow(book[k], oid, q)
  {
    seq(|book|, k requires 0 <= k < |book| => TakeRow(book[k], oid, q))
  }

  /** The first row of the order id. */
  function RowOf(book: seq<Row>, id: int): Option<Row> {
    if |book| == 0 then None
    else if book[0].ord.id == id then Some(book[0])
    else RowOf(book[1..], id)
  }

  // ---------------------------------------------------------------------------
  // Movements

  /** One movement: what an order gives in a cycle. */
  datatype Movement = Movement(id: int, qtt: int, nature: string, own: string, usr: string, ord: Order)

  /** The arrays of the result of an execution, index by index, and its group. */
  datatype Executed = Executed(book: seq<Row>, mvts: seq<Movement>, exhausted: bool)

  /** What a step takes from its stock, or the exception raised. */
  function TakeStock(book: seq<Row>, oid: int, q: nat): (r: Result<(seq<Row>, bool)>)
    ensures r.Ok? ==> |r.value.0| == |book|
  {
    if !HasOid(book, oid) then Err(StockMissing)
    else if !SameStock(book, oid) then Err(StockNotUnique)
    else if StockAt(book, oid) < q then Err(StockTooSmall)
    else Ok((Take(book, oid, q), StockAt(book, oid) == q))
  }

  /** The execution of a cycle after k steps. The first step is the last node, the
      next ones the other nodes in order. `first` is the next movement id. An order
      that is not in the book would leave nulls in the result; here it is an error. */
  function ExecSteps(book: seq<Row>, c: Tflow, first: int, k: nat): (r: Result<Executed>)
    requires IsDraft(c) && k <= |c.x|
    ensures r.Ok? ==> |r.value.mvts| == k
  {
    if k == 0 then Ok(Executed(book, [], false))
    else
      var e :- ExecSteps(book, c, first, k - 1);
      var i := Before(k - 1, |c.x|);
      var t :- TakeStock(e.book, c.x[i].oid, c.flowr[i]);
      match RowOf(t.0, c.x[i].id)
      case None => Err(OrderMissing)
      case Some(row) =>
        var m := Movement(first + k - 1, c.flowr[i], row.ord.quaProv, row.owner, row.usr, row.ord);
        Ok(Executed(t.0, e.mvts + [m], e.exhausted || t.1))
  }

  /** The execution of a cycle; some order must be exhausted. */
  function ExecuteFlow(book: seq<Row>, c: Tflow, first: int): Result<Executed>
    requires IsDraft(c)
  {
    var e :- ExecSteps(book, c, first, |c.x|);
    if !e.exhausted then Err(NothingExhausted) else Ok(e)
  }
}
