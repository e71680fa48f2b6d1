/** The execution of a cached cycle on a book that agrees with it. */
module Settlement {
  import opened Numeric
  import opened FlowTypes
  import opened Orders
  import opened Kernel
  import opened Yflow
  import opened Search
  import opened Matching
  import opened Coherence
  import opened Book

  /** Every row holds the current stock. */
  ghost predicate BookBacked(book: seq<Row>, stock: Stock) {
    forall k :: 0 <= k < |book| ==> book[k].ord.oid in stock && book[k].ord.qtt == stock[book[k].ord.oid]
  }

  ghost predicate UniqueBook(book: seq<Row>) {
    forall i, j :: 0 <= i < j < |book| ==> book[i].ord.id != book[j].ord.id
  }

  /** The order of a node is a row of the book. */
  ghost predicate NodeAt(book: seq<Row>, b: Tfl, k: nat) {
    k < |book| && book[k].ord.id == b.id && book[k].ord.oid == b.oid
  }

  ghost predicate InTheBook(book: seq<Row>, c: Tflow) {
    forall i :: 0 <= i < |c.x| ==> NodeIn(book, c.x[i])
  }

  ghost predicate NodeIn(book: seq<Row>, b: Tfl) {
    exists k: nat :: NodeAt(book, b, k)
  }

  /** What the first k steps took from a stock. */
  function TakenBy(c: Tflow, k: nat, oid: int): nat
    requires IsDraft(c) && k <= |c.x|
  {
    if k == 0 then 0
    else
      var i := Before(k - 1, |c.x|);
      TakenBy(c, k - 1, oid) + if c.x[i].oid == oid then c.flowr[i] else 0
  }

  lemma {:induction false} TakenByOthers(c: Tflow, k: nat, i: nat)
    requires IsDraft(c) && DistinctOids(c.x) && k <= |c.x| && i < |c.x|
    requires forall j :: 0 <= j < k ==> Before(j, |c.x|) != i
    ensures TakenBy(c, k, c.x[i].oid) == 0
  {
    if k > 0 { TakenByOthers(c, k - 1, i); }
  }

  /** The step of node i takes its flow, the others nothing from its stock. */
  lemma {:induction false} TakenBySteps(c: Tflow, k: nat, j: nat)
    requires IsDraft(c) && DistinctOids(c.x) && j < k <= |c.x|
    ensures TakenBy(c, k, c.x[Before(j, |c.x|)].oid) == c.flowr[Before(j, |c.x|)]
  {
    if j == k - 1 {
      TakenByOthers(c, k - 1, Before(j, |c.x|));
    } else {
      assert Before(j, |c.x|) != Before(k - 1, |c.x|);
      TakenBySteps(c, k - 1, j);
    }
  }

  lemma {:induction false} TakenByNone(c: Tflow, k: nat, oid: int)
    requires IsDraft(c) && k <= |c.x| && forall i :: 0 <= i < |c.x| ==> c.x[i].oid != oid
    ensures TakenBy(c, k, oid) == 0
  {
    if k > 0 { TakenByNone(c, k - 1, oid); }
  }

  /** All the steps together take what the cycle takes. */
  lemma TakenByAll(c: Tflow, oid: int)
    requires IsDraft(c) && DistinctOids(c.x)
    ensures TakenBy(c, |c.x|, oid) == Amount(c, oid)
  {
    hide Amount;
    if i :| 0 <= i < |c.x| && c.x[i].oid == oid {
      AmountAt(c, i);
      var j := if i == |c.x| - 1 then 0 else i + 1;
      TakenBySteps(c, |c.x|, j);
    } else {
      AmountIsNone(c, oid);
      TakenByNone(c, |c.x|, oid);
    }
  }

  lemma {:induction false} TakenByGrows(c: Tflow, k: nat, n: nat, oid: int)
    requires IsDraft(c) && k <= n <= |c.x|
    ensures TakenBy(c, k, oid) <= TakenBy(c, n, oid)
    decreases n
  {
    if k < n { TakenByGrows(c, k, n - 1, oid); }
  }

  /** A row with q less in its stock. */
  function Debited(r: Row, q: nat): Row
    requires q <= r.ord.qtt
  {
    r.(ord := r.ord.(qtt := r.ord.qtt - q))
  }

  predicate Affordable(book: seq<Row>, c: Tflow) {
    && IsDraft(c) && DistinctOids(c.x)
    && forall k :: 0 <= k < |book| ==> Amount(c, book[k].ord.oid) <= book[k].ord.qtt
  }

  lemma Affords(book: seq<Row>, c: Tflow, k: nat, r: nat)
    requires Affordable(book, c) && k <= |c.x| && r < |book|
    ensures TakenBy(c, k, book[r].ord.oid) <= book[r].ord.qtt
  {
    hide Amount;
    TakenByAll(c, book[r].ord.oid);
    TakenByGrows(c, k, |c.x|, book[r].ord.oid);
  }

  /** No row is asked for more than its stock by the first k steps. */
  predicate CanTake(book: seq<Row>, c: Tflow, k: nat)
    requires IsDraft(c) && k <= |c.x|
  {
    forall r :: 0 <= r < |book| ==> TakenBy(c, k, book[r].ord.oid) <= book[r].ord.qtt
  }

  /** The book after k steps. */
  function BookAfter(book: seq<Row>, c: Tflow, k: nat): (b: seq<Row>)
    requires IsDraft(c) && k <= |c.x|
    requires CanTake(book, c, k)
    ensures |b| == |book|
    ensures forall r :: 0 <= r < |book| ==> b[r] == Debited(book[r], TakenBy(c, k, book[r].ord.oid))
  {
    seq(|book|, r requires 0 <= r < |book| => Debited(book[r], TakenBy(c, k, book[r].ord.oid)))
  }

  /** The book after the whole cycle. */
  function DebitBook(book: seq<Row>, c: Tflow): (b: seq<Row>)
    requires Affordable(book, c)
    ensures |b| == |book|
    ensures forall r :: 0 <= r < |book| ==> b[r] == Debited(book[r], Amount(c, book[r].ord.oid))
  {
    seq(|book|, r requires 0 <= r < |book| => Debited(book[r], Amount(c, book[r].ord.oid)))
  }

  lemma CachedIsAffordable(root: RootFunction, o: Order, stock: Stock, book: seq<Row>, c: Tflow)
    requires IsRoot(root) && Cached(root, o, stock, c) && BookBacked(book, stock)
    ensures Affordable(book, c)
  {
    hide FlowcMaximum, Amount, Backed, EndsWith;
    forall k | 0 <= k < |book|
      ensures Amount(c, book[k].ord.oid) <= book[k].ord.qtt
    {
      AmountWithinStock(root, o, stock, c, book[k].ord.oid);
    }
  }

  lemma {:induction false} RowOfAt(book: seq<Row>, k: nat)
    requires UniqueBook(book) && k < |book|
    ensures RowOf(book, book[k].ord.id) == Some(book[k])
  {
    if k > 0 {
      assert book[0].ord.id != book[k].ord.id;
      assert book[1..][k - 1] == book[k];
      RowOfAt(book[1..], k - 1);
    }
  }

  /** The movement of step j: what the order of its node gives, with its stock
      after that. */
  ghost predicate MovementOf(book: seq<Row>, c: Tflow, first: int, j: nat, m: Movement)
    requires j < |c.x|
  {
    var i := Before(j, |c.x|);
    exists k: nat :: NodeAt(book, c.x[i], k) && c.flowr[i] >= 0 && book[k].ord.qtt >= c.flowr[i] &&
      m == Movement(first + j, c.flowr[i], book[k].ord.quaProv, book[k].owner, book[k].usr,
                    Debited(book[k], c.flowr[i]).ord)
  }

  ghost predicate MovementsOf(book: seq<Row>, c: Tflow, first: int, mvts: seq<Movement>) {
    |mvts| <= |c.x| && forall j :: 0 <= j < |mvts| ==> MovementOf(book, c, first, j, mvts[j])
  }

  /** Some of the first k steps exhausts its stock. */
  ghost predicate ExhaustedBy(c: Tflow, k: nat)
    requires k <= |c.x|
  {
    exists j :: 0 <= j < k && c.flowr[Before(j, |c.x|)] == c.x[Before(j, |c.x|)].qtt
  }

  lemma StockAtAny(book: seq<Row>, oid: int, k: nat)
    requires k < |book| && book[k].ord.oid == oid && SameStock(book, oid)
    ensures HasOid(book, oid) && StockAt(book, oid) == book[k].ord.qtt
  {}

  /** What one more step takes from a stock. */
  lemma TakenByStep(c: Tflow, j: nat, oid: int)
    requires IsDraft(c) && j < |c.x|
    ensures var i := Before(j, |c.x|);
            TakenBy(c, j + 1, oid) == TakenBy(c, j, oid) + if c.x[i].oid == oid then c.flowr[i] else 0
  {}

  /** Before the step the rows of its stock hold what the node says. */
  lemma RowsBeforeStep(book: seq<Row>, c: Tflow, stock: Stock, j: nat)
    requires Affordable(book, c) && BookBacked(book, stock) && Backed(c.x, stock) && j < |c.x|
    requires CanTake(book, c, j)
    ensures var i := Before(j, |c.x|);
            forall r :: 0 <= r < |book| && book[r].ord.oid == c.x[i].oid ==>
              BookAfter(book, c, j)[r].ord.oid == c.x[i].oid && BookAfter(book, c, j)[r].ord.qtt == c.x[i].qtt
    ensures forall r :: 0 <= r < |book| ==> BookAfter(book, c, j)[r].ord.oid == book[r].ord.oid
  {
    hide Amount, DistinctOids;
    assert DistinctOids(c.x);
    TakenByOthers(c, j, Before(j, |c.x|));
    hide TakenBy;
  }

  /** The stock that a step finds. */
  lemma StockBeforeStep(book: seq<Row>, c: Tflow, stock: Stock, j: nat, k: nat)
    requires Affordable(book, c) && BookBacked(book, stock) && Backed(c.x, stock) && j < |c.x|
    requires NodeAt(book, c.x[Before(j, |c.x|)], k)
    requires CanTake(book, c, j)
    ensures var i, b := Before(j, |c.x|), BookAfter(book, c, j);
            && SameStock(b, c.x[i].oid)
            && HasOid(b, c.x[i].oid) && StockAt(b, c.x[i].oid) == c.x[i].qtt
  {
    RowsBeforeStep(book, c, stock, j);
    hide Affordable, BookBacked, Backed, BookAfter, CanTake, TakenBy;
    StockAtAny(BookAfter(book, c, j), c.x[Before(j, |c.x|)].oid, k);
  }

  /** The rows after a step. */
  lemma RowsAfterStep(book: seq<Row>, c: Tflow, j: nat)
    requires IsDraft(c) && j < |c.x| && CanTake(book, c, j) && CanTake(book, c, j + 1)
    ensures var i, b := Before(j, |c.x|), BookAfter(book, c, j);
            CanTakeFrom(b, c.x[i].oid, c.flowr[i]) && Take(b, c.x[i].oid, c.flowr[i]) == BookAfter(book, c, j + 1)
  {
    var i, b := Before(j, |c.x|), BookAfter(book, c, j);
    forall r | 0 <= r < |book|
      ensures b[r].ord.oid == c.x[i].oid ==> b[r].ord.qtt >= c.flowr[i]
      ensures CanTakeFrom(b, c.x[i].oid, c.flowr[i]) ==>
                TakeRow(b[r], c.x[i].oid, c.flowr[i]) == BookAfter(book, c, j + 1)[r]
    {
      TakenByStep(c, j, book[r].ord.oid);
      hide TakenBy;
    }
  }

  /** One step on a book that agrees with the cycle. */
  lemma ExecStep(book: seq<Row>, c: Tflow, stock: Stock, j: nat, k: nat)
    requires Affordable(book, c) && BookBacked(book, stock) && Backed(c.x, stock) && j < |c.x|
    requires NodeAt(book, c.x[Before(j, |c.x|)], k)
    requires CanTake(book, c, j)
    requires CanTake(book, c, j + 1)
    ensures var i := Before(j, |c.x|);
            TakeStock(BookAfter(book, c, j), c.x[i].oid, c.flowr[i])
            == Ok((BookAfter(book, c, j + 1), c.flowr[i] == c.x[i].qtt))
  {
    StockBeforeStep(book, c, stock, j, k);
    RowsAfterStep(book, c, j);
    StockCovers(book, c, j);
    hide StockAt, HasOid, SameStock, Backed, BookBacked, Affordable, BookAfter, CanTake, Take, TakenBy;
  }

  lemma StockCovers(book: seq<Row>, c: Tflow, j: nat)
    requires IsDraft(c) && j < |c.x| && CanTake(book, c, j)
    requires var i, b := Before(j, |c.x|), BookAfter(book, c, j);
             CanTakeFrom(b, c.x[i].oid, c.flowr[i])
    ensures var i, b := Before(j, |c.x|), BookAfter(book, c, j);
            HasOid(b, c.x[i].oid) ==> StockAt(b, c.x[i].oid) >= c.flowr[i]
  {
    hide TakenBy, CanTake, BookAfter;
  }

  lemma RowAfter(book: seq<Row>, c: Tflow, j: nat, k: nat)
    requires Affordable(book, c) && UniqueBook(book) && j < |c.x|
    requires NodeAt(book, c.x[Before(j, |c.x|)], k)
    requires CanTake(book, c, j + 1)
    ensures c.flowr[Before(j, |c.x|)] <= book[k].ord.qtt
    ensures RowOf(BookAfter(book, c, j + 1), c.x[Before(j, |c.x|)].id)
            == Some(Debited(book[k], c.flowr[Before(j, |c.x|)]))
  {
    hide Amount;
    TakenBySteps(c, j + 1, j);
    var b := BookAfter(book, c, j + 1);
    assert UniqueBook(b);
    RowOfAt(b, k);
  }

  /** What the execution of k steps is. */
  ghost predicate ExecutedBy(book: seq<Row>, c: Tflow, first: int, k: nat, e: Executed)
    requires IsDraft(c) && k <= |c.x|
    requires CanTake(book, c, k)
  {
    && e.book == BookAfter(book, c, k)
    && |e.mvts| == k && MovementsOf(book, c, first, e.mvts)
    && (e.exhausted <==> ExhaustedBy(c, k))
  }

  /** The result of a step that raises nothing. */
  lemma ExecStepsUnfold(book: seq<Row>, c: Tflow, first: int, k: nat, e: Executed, b: seq<Row>, last: bool, row: Row)
    requires IsDraft(c) && 1 <= k <= |c.x| && ExecSteps(book, c, first, k - 1) == Ok(e)
    requires var i := Before(k - 1, |c.x|);
             TakeStock(e.book, c.x[i].oid, c.flowr[i]) == Ok((b, last)) && RowOf(b, c.x[i].id) == Some(row)
    ensures var i := Before(k - 1, |c.x|);
            var m := Movement(first + k - 1, c.flowr[i], row.ord.quaProv, row.owner, row.usr, row.ord);
            ExecSteps(book, c, first, k) == Ok(Executed(b, e.mvts + [m], e.exhausted || last))
  {
    hide TakeStock, RowOf;
  }

  lemma ExecutedSnoc(book: seq<Row>, c: Tflow, first: int, k: nat, e: Executed, n: nat)
    requires IsDraft(c) && 1 <= k <= |c.x| && CanTake(book, c, k - 1) && CanTake(book, c, k)
    requires ExecutedBy(book, c, first, k - 1, e)
    requires NodeAt(book, c.x[Before(k - 1, |c.x|)], n)
    requires c.flowr[Before(k - 1, |c.x|)] <= book[n].ord.qtt
    ensures var i := Before(k - 1, |c.x|);
            var row := Debited(book[n], c.flowr[i]);
            var m := Movement(first + k - 1, c.flowr[i], row.ord.quaProv, row.owner, row.usr, row.ord);
            ExecutedBy(book, c, first, k,
                       Executed(BookAfter(book, c, k), e.mvts + [m], e.exhausted || c.flowr[i] == c.x[i].qtt))
  {
    hide TakenBy, CanTake, BookAfter;
    var i := Before(k - 1, |c.x|);
    var row := Debited(book[n], c.flowr[i]);
    var m := Movement(first + k - 1, c.flowr[i], row.ord.quaProv, row.owner, row.usr, row.ord);
    assert MovementOf(book, c, first, k - 1, m);
    ExhaustedSnoc(c, k);
  }

  lemma ExhaustedSnoc(c: Tflow, k: nat)
    requires 1 <= k <= |c.x|
    ensures var i := Before(k - 1, |c.x|);
            ExhaustedBy(c, k) <==> ExhaustedBy(c, k - 1) || c.flowr[i] == c.x[i].qtt
  {}

  lemma ExecutedNothing(book: seq<Row>, c: Tflow, first: int)
    requires IsDraft(c) && CanTake(book, c, 0)
    ensures ExecSteps(book, c, first, 0).Ok? && ExecutedBy(book, c, first, 0, ExecSteps(book, c, first, 0).value)
  {
    assert BookAfter(book, c, 0) == book;
  }

  lemma {:induction false} ExecStepsSucceed(book: seq<Row>, c: Tflow, stock: Stock, first: int, k: nat)
    requires Affordable(book, c) && UniqueBook(book) && InTheBook(book, c)
    requires BookBacked(book, stock) && Backed(c.x, stock) && k <= |c.x|
    ensures CanTake(book, c, k) && ExecSteps(book, c, first, k).Ok?
    ensures ExecutedBy(book, c, first, k, ExecSteps(book, c, first, k).value)
  {
    hide TakenBy, TakeStock, RowOf, BookAfter, BookBacked, Backed, UniqueBook, CanTake, ExecutedBy, ExecSteps, Amount;
    AffordsAll(book, c, k);
    if k == 0 {
      ExecutedNothing(book, c, first);
    } else {
      AffordsAll(book, c, k - 1);
      ExecStepsSucceed(book, c, stock, first, k - 1);
      var e := ExecSteps(book, c, first, k - 1).value;
      var i := Before(k - 1, |c.x|);
      assert NodeIn(book, c.x[i]);
      var n: nat :| NodeAt(book, c.x[i], n);
      ExecStep(book, c, stock, k - 1, n);
      RowAfter(book, c, k - 1, n);
      ExecutedBook(book, c, first, k - 1, e);
      ExecStepsUnfold(book, c, first, k, e, BookAfter(book, c, k), c.flowr[i] == c.x[i].qtt,
                      Debited(book[n], c.flowr[i]));
      ExecutedSnoc(book, c, first, k, e, n);
    }
  }

  lemma ExecutedBook(book: seq<Row>, c: Tflow, first: int, k: nat, e: Executed)
    requires IsDraft(c) && k <= |c.x| && CanTake(book, c, k) && ExecutedBy(book, c, first, k, e)
    ensures e.book == BookAfter(book, c, k)
  {}

  lemma AffordsAll(book: seq<Row>, c: Tflow, k: nat)
    requires Affordable(book, c) && k <= |c.x|
    ensures CanTake(book, c, k)
  {
    hide Amount;
    forall r | 0 <= r < |book|
      ensures TakenBy(c, k, book[r].ord.oid) <= book[r].ord.qtt
    {
      Affords(book, c, k, r);
    }
  }

  /** A cached cycle whose orders are in a book that agrees with it is executed
      without any exception: the book is debited by the cycle, and there is one
      movement for each step. */
  lemma CachedExecutes(root: RootFunction, o: Order, stock: Stock, book: seq<Row>, c: Tflow, first: int)
    requires IsRoot(root) && Cached(root, o, stock, c)
    requires BookBacked(book, stock) && UniqueBook(book) && InTheBook(book, c)
    ensures Affordable(book, c) && ExecuteFlow(book, c, first).Ok?
    ensures var e := ExecuteFlow(book, c, first).value;
            && e.book == DebitBook(book, c)
            && |e.mvts| == |c.x| && MovementsOf(book, c, first, e.mvts)
    ensures BookBacked(DebitBook(book, c), Debit(stock, c))
  {
    hide FlowcMaximum, TakenBy, ExecSteps, Amount, MovementsOf;
    CachedIsAffordable(root, o, stock, book, c);
    ExecStepsSucceed(book, c, stock, first, |c.x|);
    CachedSpends(root, o, stock, c);
    BookAfterAll(book, c);
  }

  lemma BookAfterAll(book: seq<Row>, c: Tflow)
    requires Affordable(book, c) && CanTake(book, c, |c.x|)
    ensures BookAfter(book, c, |c.x|) == DebitBook(book, c)
  {
    hide Amount;
    forall r | 0 <= r < |book|
      ensures BookAfter(book, c, |c.x|)[r] == DebitBook(book, c)[r]
    {
      TakenByAll(c, book[r].ord.oid);
    }
  }

  lemma CachedSpends(root: RootFunction, o: Order, stock: Stock, c: Tflow)
    requires IsRoot(root) && Cached(root, o, stock, c)
    ensures ExhaustedBy(c, |c.x|)
  {
    hide FlowcMaximum, Rankable, Probable;
    RecordedIsExecutable(root, c);
    var e :| 0 <= e < |c.x| && IsLimited(c.x, e) && c.flowr[e] == c.x[e].qtt;
    var j := if e == |c.x| - 1 then 0 else e + 1;
    assert Before(j, |c.x|) == e;
  }
}
