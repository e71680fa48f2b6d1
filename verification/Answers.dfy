/** What a quote answers: the quantities that the messages of the order tell. */
module Answers {
  import opened Numeric
  import Orders
  import opened Search
  import opened Matching
  import opened MarketRuns
  import opened Primitives
  import opened Quotes
  import opened Renaming
  import opened Runs
  import opened Histories

  /** The answer of a quote, from its dry run. */
  lemma AnswerOf(root: RootFunction, book: seq<Row>, o: Orders.Order, now: int)
    requires IsRoot(root) && Quotable(book, o)
    ensures var a, v := ProcessQuote(root, book, o, now), QuoteRun(root, book, o, now, FlagsOf(o));
            && (a.Ok? <==> v.Ok?)
            && (a.Ok? ==> a.value.qttReci == v.value.quoting.totals.reci
                          && a.value.qttGive == v.value.quoting.totals.give)
  {
    hide QuoteRun, Quotable;
  }

  /** The quote of an order answers exactly when the order can be inserted, and then what
      it tells to be received and given are the totals of the insertion. */
  lemma QuoteAnswersOrder(root: RootFunction, m: Market, r: Row, now: int)
    requires IsRoot(root) && ValidBook(m.torder) && NewOrder(m.torder, r.ord)
    ensures Quotable(m.torder, r.ord)
    ensures var a, e := ProcessQuote(root, m.torder, r.ord, now), InsertOrder(root, m, r, now);
            && (a.Ok? <==> e.Ok?)
            && (a.Ok? ==> a.value.qttReci == e.value.totals.reci && a.value.qttGive == e.value.totals.give)
  {
    hide *;
    NewIsQuotable(m.torder, r.ord);
    AnswerOf(root, m.torder, r.ord, now);
    QuotePredictsOrder(root, m, r, now);
  }

  /** The same for a quote under an id of its own: what it answers to be received and
      given is what the messages of the order, inserted under another id, then tell. */
  lemma QuoteAnswersLaterOrder(root: RootFunction, m: Market, r: Row, now: int, idq: int)
    requires IsRoot(root) && ValidBook(m.torder)
    requires NewOrder(m.torder, r.ord) && NewOrder(m.torder, Renamed(r.ord, idq))
    ensures Quotable(m.torder, Renamed(r.ord, idq))
    ensures var a, e := ProcessQuote(root, m.torder, Renamed(r.ord, idq), now), InsertOrder(root, m, r, now);
            && (a.Ok? <==> e.Ok?)
            && (a.Ok? ==>
                  && a.value.qttReci == e.value.totals.reci && a.value.qttGive == e.value.totals.give
                  && a.value.qttReci == Got(e.value.market.tmsg, r.ord.id) - Got(m.tmsg, r.ord.id)
                  && a.value.qttGive == Gave(e.value.market.tmsg, r.ord.id) - Gave(m.tmsg, r.ord.id))
  {
    hide *;
    QuotePredictsLaterOrder(root, m, r, now, idq);
    AnswerOf(root, m.torder, Renamed(r.ord, idq), now);
    var e := InsertOrder(root, m, r, now);
    if e.Ok? {
      InsertionTells(root, m, r, now);
      TotalsFromNothing(m, r.ord.id, e.value);
    }
  }

  lemma TotalsFromNothing(m: Market, id: int, e: Outcome)
    requires TotalsTold(m, NOTHING, id, e)
    ensures e.totals.give == Gave(e.market.tmsg, id) - Gave(m.tmsg, id)
    ensures e.totals.reci == Got(e.market.tmsg, id) - Got(m.tmsg, id)
  {}

  /** A quote primitive and an order primitive of the same terms, the order coming later
      on the stack and executed on the same market at the same time: the quote answers
      what the messages of the order tell. */
  lemma QuotePrimitiveAnswers(root: RootFunction, m: Market, q: Entry, e: Entry, now: int)
    requires IsRoot(root) && ReadyFor(m, q.id) && q.id < e.id
    requires q == e.(id := q.id, isOrder := false, usr := q.usr, owner := q.owner, submitted := q.submitted)
    requires e.isOrder
    ensures ReadyFor(m, e.id) && Quotable(m.torder, OrderOf(q))
    ensures var a, m1 := ProcessQuote(root, m.torder, OrderOf(q), now), Execute(root, m, e, now);
            && (a.Ok? <==> m1.Ok?)
            && (a.Ok? ==>
                  && a.value.qttReci == Got(m1.value.tmsg, e.id) - Got(m.tmsg, e.id)
                  && a.value.qttGive == Gave(m1.value.tmsg, e.id) - Gave(m.tmsg, e.id))
  {
    hide *;
    ReadyLater(m, q.id, e.id);
    ReadyIsValid(m, e.id);
    EntryIsNew(m, q);
    EntryIsNew(m, e);
    SameTerms(q, e);
    QuoteAnswersLaterOrder(root, m, RowOfEntry(e), now, q.id);
    ExecuteIs(root, m, e, now);
  }

  lemma SameTerms(q: Entry, e: Entry)
    requires q == e.(id := q.id, isOrder := false, usr := q.usr, owner := q.owner, submitted := q.submitted)
    ensures OrderOf(q) == Renamed(RowOfEntry(e).ord, q.id) && RowOfEntry(e).ord.id == e.id
  {}
}
