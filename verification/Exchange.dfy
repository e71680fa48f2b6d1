/** The exchange messages of an executed cycle. */
module Exchange {
  import opened FlowTypes
  import opened Search
  import opened Book
  import opened Settlement

  /** A value, with the owner and user on the other side of a movement. */
  datatype Side = Side(id: int, qtt: int, nature: string, own: string, usr: string)

  /** What the user of an order is told of a cycle. */
  datatype Message = Message(
    usr: string,
    mvt: int,
    cycle: int,
    orderId: int,
    qttProv: int,
    qttRequ: int,
    isLimit: bool,
    stock: Side,
    from: Side,
    to: Side,
    orig: int)

  /** The index after i on a cycle of n. */
  function After(i: nat, n: nat): (j: nat)
    requires i < n
    ensures j < n && Before(j, n) == i
  {
    if i == n - 1 then 0 else i + 1
  }

  /** The message of round k: about the order before k, which gives to the order k
      and receives from the order before it. */
  function MessageAt(mvts: seq<Movement>, grp: int, orig: int, k: nat): Message
    requires k < |mvts|
  {
    var i := Before(k, |mvts|);
    var p := Before(i, |mvts|);
    var o := mvts[i].ord;
    Message(mvts[i].usr, mvts[i].id, grp, o.id, o.qttProv, o.qttRequ, OrderType(o.kind) == ORDER_LIMIT,
            Side(o.oid, o.qtt, mvts[i].nature, mvts[i].own, mvts[i].usr),
            Side(mvts[i].id, mvts[i].qtt, mvts[i].nature, mvts[k].own, mvts[k].usr),
            Side(mvts[p].id, mvts[p].qtt, mvts[p].nature, mvts[p].own, mvts[p].usr),
            orig)
  }

  function Messages(mvts: seq<Movement>, grp: int, orig: int): (ms: seq<Message>)
    ensures |ms| == |mvts| && forall k :: 0 <= k < |ms| ==> ms[k] == MessageAt(mvts, grp, orig, k)
  {
    seq(|mvts|, k requires 0 <= k < |mvts| => MessageAt(mvts, grp, orig, k))
  }

  lemma BeforeIs(k: nat, n: nat)
    requires k < n
    ensures Before(k, n) == if k == 0 then n - 1 else k - 1
  {}

  /** The value given that message k tells. */
  lemma MessageGives(mvts: seq<Movement>, grp: int, orig: int, k: nat)
    requires k < |mvts|
    ensures var m, v := Messages(mvts, grp, orig)[k], mvts[Before(k, |mvts|)];
            m.from.qtt == v.qtt && m.from.nature == v.nature && m.stock.id == v.ord.oid
  {}

  /** The messages as the loop writes them, with rotating indices. */
  method OnCreateCycle(mvts: seq<Movement>, grp: int, orig: int) returns (ms: seq<Message>)
    requires |mvts| >= 2
    ensures ms == Messages(mvts, grp, orig)
  {
    ms := [];
    var n := |mvts|;
    var i := n - 1;
    var prev := i - 1;
    for next := 0 to n
      invariant next < n ==> i == Before(next, n) && prev == Before(i, n)
      invariant 0 <= i < n && 0 <= prev < n
      invariant |ms| == next && forall k :: 0 <= k < next ==> ms[k] == MessageAt(mvts, grp, orig, k)
    {
      var o := mvts[i].ord;
      var m := Message(
        mvts[i].usr, mvts[i].id, grp, o.id, o.qttProv, o.qttRequ, OrderType(o.kind) == ORDER_LIMIT,
        Side(o.oid, o.qtt, mvts[i].nature, mvts[i].own, mvts[i].usr),
        Side(mvts[i].id, mvts[i].qtt, mvts[i].nature, mvts[next].own, mvts[next].usr),
        Side(mvts[prev].id, mvts[prev].qtt, mvts[prev].nature, mvts[prev].own, mvts[prev].usr),
        orig);
      ms := ms + [m];
      prev := i;
      i := next;
    }
  }

  /** The movements of a cycle are numbered in sequence. */
  predicate Numbered(mvts: seq<Movement>, first: int) {
    forall j :: 0 <= j < |mvts| ==> mvts[j].id == first + j
  }

  /** Double entry. Each movement is the one given in exactly one message and the
      one received in exactly one message; both tell the same quantity and nature;
      the owner named as receiver is the owner of the second message, and the owner
      named as giver is the owner of the first. */
  lemma DoubleEntry(mvts: seq<Movement>, first: int, grp: int, orig: int, j: nat)
    requires |mvts| >= 2 && Numbered(mvts, first) && j < |mvts|
    ensures var ms := Messages(mvts, grp, orig);
            var g := After(j, |mvts|);
            var r := After(g, |mvts|);
            && (forall k :: 0 <= k < |ms| ==> (ms[k].from.id == mvts[j].id <==> k == g))
            && (forall k :: 0 <= k < |ms| ==> (ms[k].to.id == mvts[j].id <==> k == r))
            && ms[g].from.qtt == ms[r].to.qtt == mvts[j].qtt
            && ms[g].from.nature == ms[r].to.nature == mvts[j].nature
            && ms[g].from.own == ms[r].stock.own && ms[g].from.usr == ms[r].usr
            && ms[r].to.own == ms[g].stock.own && ms[r].to.usr == ms[g].usr
  {
    var n := |mvts|;
    forall k | 0 <= k < n
      ensures Before(k, n) == j <==> k == After(j, n)
      ensures Before(Before(k, n), n) == j <==> k == After(After(j, n), n)
    {}
  }

  /** The message about node i, whose order is row k, the one before it row p, the
      one after it row s: the order and its user, what is left of its stock, what it
      gives to the next order, and what it receives from the one before. */
  ghost predicate Told(book: seq<Row>, c: Tflow, i: nat, m: Message, k: nat, p: nat, s: nat)
    requires i < |c.x| && k < |book| && p < |book| && s < |book|
  {
    var o, give, receive := book[k].ord, c.flowr[i], c.flowr[Before(i, |c.x|)];
    && m.orderId == o.id && m.usr == book[k].usr
    && m.qttProv == o.qttProv && m.qttRequ == o.qttRequ && (m.isLimit <==> OrderType(o.kind) == ORDER_LIMIT)
    && m.stock == Side(o.oid, o.qtt - give, o.quaProv, book[k].owner, book[k].usr)
    && m.from == Side(m.mvt, give, o.quaProv, book[s].owner, book[s].usr)
    && m.to == Side(m.to.id, receive, book[p].ord.quaProv, book[p].owner, book[p].usr)
  }

  ghost predicate TellsNode(book: seq<Row>, c: Tflow, i: nat, m: Message)
    requires i < |c.x|
  {
    exists k: nat, p: nat, s: nat ::
      && NodeAt(book, c.x[i], k)
      && NodeAt(book, c.x[Before(i, |c.x|)], p)
      && NodeAt(book, c.x[After(i, |c.x|)], s)
      && Told(book, c, i, m, k, p, s)
  }

  lemma MovementOfNode(book: seq<Row>, c: Tflow, first: int, mvts: seq<Movement>, i: nat) returns (k: nat)
    requires |mvts| == |c.x| && MovementsOf(book, c, first, mvts) && i < |c.x|
    ensures NodeAt(book, c.x[i], k) && k < |book|
    ensures 0 <= c.flowr[i] <= book[k].ord.qtt
    ensures var j := After(i, |c.x|);
            mvts[j] == Movement(first + j, c.flowr[i], book[k].ord.quaProv, book[k].owner, book[k].usr,
                                Debited(book[k], c.flowr[i]).ord)
  {
    var j := After(i, |c.x|);
    assert MovementOf(book, c, first, j, mvts[j]);
    k :| NodeAt(book, c.x[i], k) && c.flowr[i] >= 0 && book[k].ord.qtt >= c.flowr[i] &&
         mvts[j] == Movement(first + j, c.flowr[i], book[k].ord.quaProv, book[k].owner, book[k].usr,
                             Debited(book[k], c.flowr[i]).ord);
  }

  /** The user of each order of an executed cycle is told that it gives its flow to
      the next order of the cycle and receives the flow of the one before it. */
  lemma ReceivesFromPredecessor(book: seq<Row>, c: Tflow, first: int, mvts: seq<Movement>, grp: int, orig: int, i: nat)
    requires |c.x| >= 2 && |mvts| == |c.x| && MovementsOf(book, c, first, mvts) && i < |c.x|
    ensures TellsNode(book, c, i, Messages(mvts, grp, orig)[After(After(i, |c.x|), |c.x|)])
  {
    var n := |c.x|;
    var k := MovementOfNode(book, c, first, mvts, i);
    var p := MovementOfNode(book, c, first, mvts, Before(i, n));
    var s := MovementOfNode(book, c, first, mvts, After(i, n));
    AfterBefore(i, n);
    hide MovementsOf, NodeAt;
    assert Told(book, c, i, Messages(mvts, grp, orig)[After(After(i, n), n)], k, p, s);
  }

  lemma AfterBefore(i: nat, n: nat)
    requires i < n
    ensures After(Before(i, n), n) == i
  {}

  lemma MovementsNumbered(book: seq<Row>, c: Tflow, first: int, mvts: seq<Movement>)
    requires |mvts| == |c.x| && MovementsOf(book, c, first, mvts)
    ensures Numbered(mvts, first)
  {
    forall j | 0 <= j < |mvts|
      ensures mvts[j].id == first + j
    {
      assert MovementOf(book, c, first, j, mvts[j]);
    }
  }
}
