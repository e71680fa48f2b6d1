/** What the execution of a cycle raises, in terms of the rows of the book as it stood
    before. */
module Withdrawals {
  import opened FlowTypes
  import opened Search
  import opened Book

  /** The row holds the stock of the node. */
  predicate Holds(book: seq<Row>, c: Tflow, i: nat, k: int)
    requires i < |c.x|
  {
    0 <= k < |book| && book[k].ord.oid == c.x[i].oid
  }

  ghost predicate SomeHolds(book: seq<Row>, c: Tflow, i: nat)
    requires i < |c.x|
  {
    exists k :: Holds(book, c, i, k)
  }

  /** Two rows hold different quantities of the stock. */
  ghost predicate Disagree(book: seq<Row>, c: Tflow, i: nat)
    requires i < |c.x|
  {
    exists k, l :: Holds(book, c, i, k) && Holds(book, c, i, l) && book[k].ord.qtt != book[l].ord.qtt
  }

  /** A row holds less than the flow. */
  ghost predicate Short(book: seq<Row>, c: Tflow, i: nat)
    requires i < |c.x|
  {
    exists k :: Holds(book, c, i, k) && book[k].ord.qtt < c.flowr[i]
  }

  /** A row holds just the flow. */
  ghost predicate Spends(book: seq<Row>, c: Tflow, i: nat)
    requires i < |c.x|
  {
    exists k :: Holds(book, c, i, k) && book[k].ord.qtt == c.flowr[i]
  }

  predicate Listed(book: seq<Row>, id: int) {
    exists k :: 0 <= k < |book| && book[k].ord.id == id
  }

  /** What the step of node i raises. */
  ghost function Raises(book: seq<Row>, c: Tflow, i: nat): Option<Failure>
    requires i < |c.x|
  {
    if !SomeHolds(book, c, i) then Some(StockMissing)
    else if Disagree(book, c, i) then Some(StockNotUnique)
    else if Short(book, c, i) then Some(StockTooSmall)
    else if !Listed(book, c.x[i].id) then Some(OrderMissing)
    else None
  }

  // ---------------------------------------------------------------------------
  // The book between two steps

  /** The rows are those of the book, and the stocks of the nodes that come at step k or
      later are as they were. */
  ghost predicate Untouched(book: seq<Row>, c: Tflow, k: nat, b: seq<Row>) {
    && |b| == |book|
    && forall r :: 0 <= r < |b| ==> RowUntouched(book[r], c, k, b[r])
  }

  ghost predicate RowUntouched(was: Row, c: Tflow, k: nat, r: Row) {
    && r.ord.id == was.ord.id && r.ord.oid == was.ord.oid
    && forall j :: k <= j < |c.x| && c.x[Before(j, |c.x|)].oid == was.ord.oid ==> r.ord.qtt == was.ord.qtt
  }

  lemma SameRaises(book: seq<Row>, c: Tflow, k: nat, b: seq<Row>)
    requires Untouched(book, c, k, b) && k < |c.x|
    ensures var i := Before(k, |c.x|);
            && Raises(b, c, i) == Raises(book, c, i) && (Spends(b, c, i) <==> Spends(book, c, i))
  {
    var i := Before(k, |c.x|);
    forall r
      ensures Holds(b, c, i, r) <==> Holds(book, c, i, r)
      ensures Holds(b, c, i, r) ==> b[r].ord.qtt == book[r].ord.qtt
      ensures 0 <= r < |b| ==> b[r].ord.id == book[r].ord.id
    {
      if 0 <= r < |b| { assert RowUntouched(book[r], c, k, b[r]); }
    }
  }

  lemma {:induction false} RowOfIff(book: seq<Row>, id: int)
    ensures RowOf(book, id).Some? <==> Listed(book, id)
  {
    if |book| > 0 && book[0].ord.id != id {
      RowOfIff(book[1..], id);
      if k :| 0 <= k < |book| && book[k].ord.id == id { assert book[1..][k - 1] == book[k]; }
    }
  }

  /** One step, in terms of the rows that it finds. */
  lemma TakeStockIs(b: seq<Row>, c: Tflow, i: nat)
    requires i < |c.x| && c.flowr[i] >= 0
    ensures var t, e := TakeStock(b, c.x[i].oid, c.flowr[i]), Raises(b, c, i);
            if t.Err? then e == Some(t.error)
            else
              && (e == None || e == Some(OrderMissing))
              && CanTakeFrom(b, c.x[i].oid, c.flowr[i]) && t.value.0 == Take(b, c.x[i].oid, c.flowr[i])
              && (t.value.1 <==> Spends(b, c, i))
  {
    var oid := c.x[i].oid;
    assert SomeHolds(b, c, i) <==> HasOid(b, oid) by {
      if k :| 0 <= k < |b| && b[k].ord.oid == oid { assert Holds(b, c, i, k); }
    }
    if HasOid(b, oid) {
      assert Disagree(b, c, i) <==> !SameStock(b, oid) by { DisagreeIff(b, c, i); }
      var k :| 0 <= k < |b| && b[k].ord.oid == oid && StockAt(b, oid) == b[k].ord.qtt;
      assert Holds(b, c, i, k);
    }
  }

  lemma DisagreeIff(b: seq<Row>, c: Tflow, i: nat)
    requires i < |c.x|
    ensures Disagree(b, c, i) <==> !SameStock(b, c.x[i].oid)
  {
    if k, l :| 0 <= k < |b| && 0 <= l < |b| && b[k].ord.oid == c.x[i].oid && b[l].ord.oid == c.x[i].oid
               && b[k].ord.qtt != b[l].ord.qtt {
      assert Holds(b, c, i, k) && Holds(b, c, i, l);
    }
  }

  /** The rows after a step. */
  lemma StillUntouched(book: seq<Row>, c: Tflow, k: nat, b: seq<Row>)
    requires Untouched(book, c, k, b) && k < |c.x| && DistinctOids(c.x) && c.flowr[Before(k, |c.x|)] >= 0
    requires CanTakeFrom(b, c.x[Before(k, |c.x|)].oid, c.flowr[Before(k, |c.x|)])
    ensures Untouched(book, c, k + 1, Take(b, c.x[Before(k, |c.x|)].oid, c.flowr[Before(k, |c.x|)]))
  {
    var i := Before(k, |c.x|);
    var t := Take(b, c.x[i].oid, c.flowr[i]);
    forall r | 0 <= r < |b|
      ensures RowUntouched(book[r], c, k + 1, t[r])
    {
      assert RowUntouched(book[r], c, k, b[r]);
      forall j | k + 1 <= j < |c.x| && c.x[Before(j, |c.x|)].oid == book[r].ord.oid
        ensures t[r].ord.qtt == book[r].ord.qtt
      {
        OtherNode(c, k, j);
      }
    }
  }

  lemma OtherNode(c: Tflow, k: nat, j: nat)
    requires DistinctOids(c.x) && k < j < |c.x|
    ensures c.x[Before(k, |c.x|)].oid != c.x[Before(j, |c.x|)].oid
  {}

  // ---------------------------------------------------------------------------
  // The whole cycle

  /** No node of the first k steps raises. */
  ghost predicate QuietUpTo(book: seq<Row>, c: Tflow, k: nat)
    requires k <= |c.x|
  {
    forall j :: 0 <= j < k ==> Raises(book, c, Before(j, |c.x|)) == None
  }

  ghost predicate SpendsUpTo(book: seq<Row>, c: Tflow, k: nat)
    requires k <= |c.x|
  {
    exists j :: 0 <= j < k && Spends(book, c, Before(j, |c.x|))
  }

  /** One more step. */
  lemma NextStep(book: seq<Row>, c: Tflow, first: int, k: nat)
    requires IsDraft(c) && DistinctOids(c.x) && k < |c.x| && ExecSteps(book, c, first, k).Ok?
    requires Untouched(book, c, k, ExecSteps(book, c, first, k).value.book)
    ensures var i, e := Before(k, |c.x|), ExecSteps(book, c, first, k).value;
            var s := ExecSteps(book, c, first, k + 1);
            if s.Err? then Raises(book, c, i) == Some(s.error)
            else
              && Raises(book, c, i) == None && Untouched(book, c, k + 1, s.value.book)
              && (s.value.exhausted <==> e.exhausted || Spends(book, c, i))
  {
    hide *;
    var i, e := Before(k, |c.x|), ExecSteps(book, c, first, k).value;
    StepIs(book, c, first, k);
    SameRaises(book, c, k, e.book);
    FlowPositive(c, i);
    TakeStockIs(e.book, c, i);
    var t := TakeStock(e.book, c.x[i].oid, c.flowr[i]);
    if t.Ok? {
      StillUntouched(book, c, k, e.book);
      RowOfIff(t.value.0, c.x[i].id);
      TakenIds(e.book, t.value.0, c, i);
      OrderRaised(e.book, c, i);
    }
  }

  lemma FlowPositive(c: Tflow, i: nat)
    requires IsDraft(c) && i < |c.x|
    ensures c.flowr[i] >= 0
  {}

  /** What one more step does. */
  lemma StepIs(book: seq<Row>, c: Tflow, first: int, k: nat)
    requires IsDraft(c) && k < |c.x| && ExecSteps(book, c, first, k).Ok?
    ensures var i, e := Before(k, |c.x|), ExecSteps(book, c, first, k).value;
            var t, s := TakeStock(e.book, c.x[i].oid, c.flowr[i]), ExecSteps(book, c, first, k + 1);
            if t.Err? then s == Err(t.error)
            else if RowOf(t.value.0, c.x[i].id).None? then s == Err(OrderMissing)
            else s.Ok? && s.value.book == t.value.0 && (s.value.exhausted <==> e.exhausted || t.value.1)
  {
    hide TakeStock, RowOf;
  }

  /** Past its stock, a step raises only when its order is missing. */
  lemma OrderRaised(b: seq<Row>, c: Tflow, i: nat)
    requires i < |c.x| && (Raises(b, c, i) == None || Raises(b, c, i) == Some(OrderMissing))
    ensures Raises(b, c, i) == None <==> Listed(b, c.x[i].id)
  {
    hide Spends, Disagree, Short, SomeHolds, Listed;
  }

  lemma TakenIds(b: seq<Row>, t: seq<Row>, c: Tflow, i: nat)
    requires i < |c.x| && c.flowr[i] >= 0 && CanTakeFrom(b, c.x[i].oid, c.flowr[i])
    requires t == Take(b, c.x[i].oid, c.flowr[i])
    ensures Listed(b, c.x[i].id) <==> Listed(t, c.x[i].id)
  {
    SameListed(b, t, c.x[i].id);
  }

  lemma SameListed(a: seq<Row>, b: seq<Row>, id: int)
    requires |a| == |b| && forall r :: 0 <= r < |a| ==> a[r].ord.id == b[r].ord.id
    ensures Listed(a, id) <==> Listed(b, id)
  {}

  lemma {:induction false} StepsAre(book: seq<Row>, c: Tflow, first: int, k: nat)
    requires IsDraft(c) && DistinctOids(c.x) && k <= |c.x|
    ensures ExecSteps(book, c, first, k).Ok? <==> QuietUpTo(book, c, k)
    ensures ExecSteps(book, c, first, k).Ok? ==>
              var e := ExecSteps(book, c, first, k).value;
              Untouched(book, c, k, e.book) && (e.exhausted <==> SpendsUpTo(book, c, k))
    ensures ExecSteps(book, c, first, k).Err? ==> exists j :: FailsAt(book, c, j, ExecSteps(book, c, first, k).error)
  {
    hide ExecSteps, Raises, Spends, DistinctOids, RowUntouched;
    if k == 0 {
      StepsStart(book, c, first);
    } else {
      StepsAre(book, c, first, k - 1);
      if ExecSteps(book, c, first, k - 1).Ok? {
        NextStep(book, c, first, k - 1);
        if ExecSteps(book, c, first, k).Err? { assert FailsAt(book, c, k - 1, ExecSteps(book, c, first, k).error); }
      } else {
        StepsStay(book, c, first, k);
      }
    }
  }

  lemma StepsStart(book: seq<Row>, c: Tflow, first: int)
    requires IsDraft(c)
    ensures ExecSteps(book, c, first, 0) == Ok(Executed(book, [], false)) && Untouched(book, c, 0, book)
  {}

  lemma StepsStay(book: seq<Row>, c: Tflow, first: int, k: nat)
    requires IsDraft(c) && 0 < k <= |c.x| && ExecSteps(book, c, first, k - 1).Err?
    ensures ExecSteps(book, c, first, k) == ExecSteps(book, c, first, k - 1)
  {}

  /** Step j is the first one that raises. */
  ghost predicate FailsAt(book: seq<Row>, c: Tflow, j: int, error: Failure) {
    && 0 <= j < |c.x| && QuietUpTo(book, c, j)
    && Raises(book, c, Before(j, |c.x|)) == Some(error)
  }

  /** On any book, the execution of a cycle whose stocks are distinct succeeds if and only
      if, for each node, some row holds its stock, all rows that do hold the same
      quantity, which is enough, and its order is in the book, and the flow of some node
      is just its stock. Otherwise the first node that fails, from the last one and then
      in order, tells the exception; when none fails no stock was exhausted. */
  lemma ExecutesIff(book: seq<Row>, c: Tflow, first: int)
    requires IsDraft(c) && DistinctOids(c.x)
    ensures var r, n := ExecuteFlow(book, c, first), |c.x|;
            && (r.Ok? <==> (forall i :: 0 <= i < n ==> Raises(book, c, i) == None)
                           && exists i :: 0 <= i < n && Spends(book, c, i))
            && (r.Err? ==> (r.error == NothingExhausted && forall i :: 0 <= i < n ==> Raises(book, c, i) == None)
                           || exists j :: FailsAt(book, c, j, r.error))
  {
    StepsAre(book, c, first, |c.x|);
    hide ExecSteps, Raises, Spends, DistinctOids, Untouched;
    EachNode(book, c);
  }

  lemma EachNode(book: seq<Row>, c: Tflow)
    ensures QuietUpTo(book, c, |c.x|) <==> forall i :: 0 <= i < |c.x| ==> Raises(book, c, i) == None
    ensures SpendsUpTo(book, c, |c.x|) <==> exists i :: 0 <= i < |c.x| && Spends(book, c, i)
  {
    hide Raises, Spends;
    forall i | 0 <= i < |c.x|
      ensures QuietUpTo(book, c, |c.x|) ==> Raises(book, c, i) == None
      ensures Spends(book, c, i) ==> SpendsUpTo(book, c, |c.x|)
    {
      var j := StepOf(i, |c.x|);
      if QuietUpTo(book, c, |c.x|) { assert Raises(book, c, Before(j, |c.x|)) == None; }
    }
  }

  lemma StepOf(i: nat, n: nat) returns (j: nat)
    requires i < n
    ensures j < n && Before(j, n) == i
  {
    j := if i == n - 1 then 0 else i + 1;
  }
}
