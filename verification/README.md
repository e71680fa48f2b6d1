# openBarter: a verified model of the matching core

openBarter matches barter orders into cycles: each order of a cycle gives to the
next one and receives from the one before it. This project models the code that
finds, computes and executes those cycles, and proves what it keeps.

Four parts form the model.

- **The flow kernel** (`src/flowc.c`). Modules Numeric, FlowTypes, Owners, Gains,
  ExactFlow, Rounding and Kernel define what the kernel computes; Guarantees, Verdicts,
  Integral, Shares, Positivity and Refusals prove what the result means; Congruence,
  what of a node is read; the class of module Chemin is the kernel as it runs, loop
  after loop on its arrays, and each loop is proved against the definitions.
- **The search and the matching loop** (`src/sql/algo.sql`, `src/yflow.c`,
  `src/yorder.c`). Orders, Search and Cycles: which cycles the recursive query
  records. Yflow, Ranking, Reduction, Matching, Coherence, Freshness and Exhaustion: the
  loop that executes the best cached cycle and reduces the others instead of searching
  again. Book, Settlement, Withdrawals, Exchange, MarketRuns, Supplies, Conservation,
  Primitives, Overflow, Quotes, QuotePrices, QuoteErrors, Answers, Renaming, Runs and
  Histories: the order book, the messages, orders, quotes and their answers, whole runs
  of primitives, and what the messages of a run tell of each order. Examples proves what
  a session of the regression tests leads to. MarketStore holds the loops and the
  tables as they run.
- **The stack of primitives** (`src/sql/pushpull.sql`, `src/sql/openclose.sql`).
  Stack interleaves, statement by statement, the transaction that pushes, its abort,
  and the consumer; Phases adds the process that opens and closes the market;
  MarketDay joins the stack to the market that its primitives are executed on.
- **The text form of a flow** (`src/yflow.c`, `src/yflowscan.l`, `src/yflowparse.y`).
  FlowText is the printer and the scanner, FlowGrammar the grammar, FlowInput the
  input function, which computes the flow again.

`dafny verify dfyconfig.toml` checks the whole project.

## Conventions

- A `double` is a `real`. The library functions pow and sqrt are one parameter `root`,
  known only by `IsRoot`: the positive n-th root of a positive number. Where the code
  divides by an integer that can be zero, the model writes out what the infinite or
  undefined quotient makes of the test that follows (`RatioWithin`,
  `PriceNotBelowOne`).
- A flow is its nodes and, beside them, the quantities exchanged (`flowr`). The code
  keeps each quantity in its node.
- Quantities are non-negative, and within the integers that are also doubles
  (`INT64_MAX_DOUBLE`) where the kernel converts them.
- An exception is an `Err` value. Its transaction is rolled back: the caller keeps
  the state it had.
- The clock is a parameter `now`, read once per primitive. The database leaves open
  the order of joined rows and of table scans; the model fixes it (paths outermost,
  then rows of the book, an insertion at the end). `SameCycles` and the quote theorem
  compare two searches with this same order.
- Positions match always: primitives pass the point (0,0) and the distance 0.
- The row lock on STACK_TOP is modelled by at most one push that holds it; the other
  pushes in flight wait for it.
- The sums of what an order receives and gives are bigints; their addition can raise
  out of range. The movement ids are unbounded.
- An exception in the consumer rolls back the deletion of the primitive too, which is
  then found again at the head of the stack (`Stack.Fail`), and executed again at a
  later time of the clock. Whether a primitive succeeds is a function of the
  executions before it, with their times, of its id, and of the time. Stack and
  Phases are stated for any such function, and for a test that tells which primitives
  can be executed at all; MarketDay takes for it the execution on the market, and
  for the test that the order or quote does not ask for what it provides. An execution
  can also fail for a passing reason. The movement ids that a failed execution has
  drawn are lost.

## What the code does not keep

Each of these is proved, with the exact condition under which the code does keep it.

- The classes made by `_calOwns` are not always the owners: a node is compared with
  the nodes numbered below the count of classes, not with the first node of each
  class. They are exactly when each owner that comes back appears first before any
  other owner has come back (`OneClassPerOwnerIff`).
- The comments at `src/flowc.c:176-187` and `src/flowc.c:663-671` say that every
  quantity of a rounded flow is positive; nothing tests it. It holds for given order
  types, whatever the prices and stocks, exactly when the types force it: all LIMIT;
  or, for a quote whose price is ignored, a cycle of two; or, for a quote whose stock
  alone is ignored in a cycle of two, a first order that is LIMIT (`PositiveIff`).
- The early refusal of a cycle at `src/flowc.c:155-162` is made as soon as one order
  is LIMIT. It loses no feasible flow exactly for types that are all LIMIT or that are
  never refused (`RefusalIff`). It loses no draft exactly for these types, and for the
  cycles of more than nine orders of which the last one alone is not LIMIT and has no
  stock, where the masks of the rounding, which move nodes eight apart together,
  find none anyway (`DraftRefusalIff`).
- Committed primitives are not all executed. Nothing at the submission of an order
  compares its two qualities (`src/sql/prims.sql:60-72`), and the insertion of an
  order that asks for what it provides raises whatever the book. The consumer catches
  the exception in a block that also holds the deletion from the stack
  (`src/sql/pushpull.sql:115-145`), so it finds the same primitive again at every
  call. After `fsubmitorder('best',owner,'a',1,'a',1)` nothing that was committed
  later is executed, at any time (`RejectedBlocks`, `SameQualityBlocks`), and once the
  access of the clients is revoked the market stays in phase 121
  (`StaysInPhase121`). The stack can be emptied, and the market closed, exactly when
  no pending primitive asks for what it provides (`CanEmptyIff`, `ClosesIff`).
- An order or a quote raises exactly when it asks for what it provides, by the same
  text or through a leading `*`, or when what it would receive over its cycles is out
  of the range of bigint (`FcreateTmpFailsIff`, `InsertOrderRuns`, `ExecutesIff`).
  The second case happens to accepted orders: the book holds two orders that each
  provide 2^62 of a quality for 1 of another, and a best order provides 16 for 2^62
  (`AcceptedOverflows`; the sums are at `src/sql/algo.sql:98-99` and
  `src/sql/algo.sql:133-134`). It cannot happen when the stocks of the book that
  match what is asked for add up to a bigint (`WithinSupplySucceeds`). Such an order
  is put back and executed again, and it is inserted at the latest when the orders of
  the book are outdated, one day after their submission (`LateSucceeds`).
- `fstackdone` compares two counters that are not reset with the sequence of ids.
  Over a day it tells whether a primitive is pending exactly when the sequence starts
  above the counters (`StackDoneIff`): on the day after a first one, exactly when nothing
  was committed on that first day (`NextDayTrustedIff`). STACK_EXECUTED decreases in some interleaving
  exactly when some primitive with an id below the counters does not ask for what it
  provides (`ExecutedGrowsIff`); the sequence restarts at 1 every day.
- The truncation of phase 202 can lose a committed primitive, exactly when a push was
  in flight at the moment the access of the clients was revoked and no primitive then
  pending asks for what it provides, so that phase 202 is reached (`TruncatedIff`).
- The aggregate `yflow_max` forgets all rows before one that cannot be executed
  (`MaxFlowForgets`); the queries keep drafts only, and then it is right
  (`MaxFlowIsGreatest`).
- The reduction of a flow raises for an order type that ignores the price of a limited
  stock, as soon as a row gives less than the executed cycle (`OtherTypesRaise`). None of
  the quotes listed at `src/flowc.c:100-106` has such a type; for these types the loop of
  a quote raises nothing but out of range (`QuoteRaisesOnly`).
- A printed flow cannot be read back when a quantity was left undefined: a quote
  without draft (`TextRestoresFlowIff`).

## Model

| member | source | states |
|---|---|---|
| Owners.ClassesPartition | src/flowc.c:305-326 | every node is in one class, no class is empty, and the sizes counted in occOwn add up to the number of nodes |
| Owners.OneClassPerOwnerIff | src/flowc.c:305-326 | two nodes share a class if and only if they share an owner, for all nodes, exactly when each repeated owner first appears in a prefix of distinct owners |
| Owners.ThreeClassesForTwoOwners | src/flowc.c:314-323 | owners A, A, B, B get three classes |
| Gains.NodeGainsProduct | src/flowc.c:341-347 | the gains of the nodes, shared by owner class and then by node, multiply to the gain of the cycle |
| Gains.CorrectedProductIsOne | src/flowc.c:381-399 | the corrected prices multiply to exactly one |
| Gains.CorrectedAtMostOmega | src/flowc.c:381-399 | with a product of prices of at least one, no corrected price is above the price of its order |
| Gains.OwnersShareEqually | src/flowc.c:341-399 | the nodes of one class have one gain, and the gains of the nodes of each class multiply to the same number, the root of the gain of the cycle for the number of classes |
| Shares.OwnersGainEqually | src/flowc.c:341-423 | in the terms of the owners: when each owner that comes back appears first before any other one has come back, every owner gains the same by the exact flow, all its orders taken together, and this gain to the power of the number of owners is the product of the prices; the orders of one owner gain the same |
| ExactFlow.FluxExactFits | src/flowc.c:449-479 | the exact flow is positive, within every defined stock, and takes the whole stock of the exhausted node |
| ExactFlow.FluxExactIsLargest | src/flowc.c:449-479 | no larger proportional flow fits the stocks |
| ExactFlow.FluxExactCloses | src/flowc.c:417-423 | the flow at each node is the corrected price times the flow before it, the wrap at node 0 included |
| Rounding.VisitsExactlyTheCube | src/flowc.c:514-532 | the vectors built from the bit masks are exactly floor plus 0 or 1 at each node, the exhausted node fixed, nodes whose indices are equal modulo 8 moved together |
| Rounding.BestBelowIsBest | src/flowc.c:599-690 | after the loop over the masks, no accepted mask has a greater distance than the kept one |
| Rounding.DistanceOrdersCosines | src/flowc.c:481-508 | comparing the value returned by _idistance compares the cosines of the angles with the exact flow |
| Guarantees.DraftWithinStocks | src/flowc.c:173-187 | in a draft every quantity is between zero and the stock, and some defined stock is exhausted |
| Guarantees.DraftNearExact | src/flowc.c:170-181 | each quantity of a draft is within one of the exact flow, and equal to it at the exhausted node |
| Guarantees.DraftObservesLimit | src/flowc.c:635-654 | a LIMIT node of a draft receives something and gives at most its price for it, with wrap-around; the last node is exempt when its price is ignored |
| Guarantees.DraftSetsPrice | src/flowc.c:656-661 | when the price of the last node is ignored, an executable draft records as its price what it gives and receives, and with it the prices of the cycle multiply to at least one |
| Guarantees.ExactObservesLimits | src/flowc.c:381-399 | with a product of prices of at least one, the exact flow is within the limit of every order |
| Guarantees.LimitsAllRound | src/flowc.c:635-654 | integers that observe every price round a cycle are all positive, and exist only if the prices multiply to at least one |
| Guarantees.RefusalLosesNothing | src/flowc.c:155-162 | when all orders are LIMIT and the product of prices is below one, no integer flow observes the limits: the early refusal loses nothing |
| Refusals.RefusalIff | src/flowc.c:155-162 | what is refused early has the status refused; for given order types, quote flags included, no cycle refused early has a vector within stocks and limits if and only if all are LIMIT, or such cycles are never refused |
| Refusals.DraftRefusalIff | src/flowc.c:155-162 | for given order types, quote flags included, no cycle refused early would have been rounded to a draft if and only if all are LIMIT, or such cycles are never refused, or there are more than nine orders, all LIMIT but the last, whose stock is ignored |
| Guarantees.AllLimitDraftIsPositive | src/flowc.c:173-187 | a draft of LIMIT orders whose prices are read gives something at every node |
| Guarantees.OnlyRangeErrors | src/flowc.c:562-586 | the sanity errors of the floors are unreachable: only a flow out of the range of int64 can raise |
| Guarantees.PlainComputes | src/flowc.c:45-119 | on a cycle of distinct, priced and stocked nodes without quote flags the kernel raises nothing and leaves the nodes unchanged |
| Guarantees.EmptyStockDrops | src/flowc.c:135-147 | a cycle with an empty stock is undefined, and what is left of it is not a draft |
| Guarantees.DraftIffAdmissible | src/flowc.c:599-704 | a vertex is chosen if and only if some vector of the cube is within stocks and limits |
| Guarantees.ChosenIsNearest | src/flowc.c:672-690 | no admissible vector of the cube is at a smaller angle from the exact flow than the one chosen |
| Guarantees.AllBestIsFound | src/flowc.c:548-708 | a plain cycle without LIMIT order always gets a draft |
| Verdicts.KernelRaisesIff | src/flowc.c:54-147 | in the terms of the nodes: which errors are raised, in which order, and which flows are left alone or undefined, each if and only if |
| Verdicts.RangeErrorIff | src/flowc.c:562-586 | the rounding raises if and only if the exact flow of some node is not below 2^63 - 1023 |
| Verdicts.AdmissibleIff | src/flowc.c:619-661 | what the checks on a vertex accept are the integers within each stock and within the price of each LIMIT order, cross-multiplied, and whose set price makes the prices multiply to at least one |
| Verdicts.StatusIff | src/flowc.c:601-704 | a draft when some vector of the cube could be exchanged, else refused when some vector within the stocks is above a price, else undefined |
| Verdicts.EqualsGoLow | src/flowc.c:605-687 | of the admissible vectors nearest to the exact flow the one kept is at its floor at the last of the first eight nodes where it differs from another |
| Verdicts.StockLeftBefore | src/flowc.c:449-479 | the stocks of the nodes before the exhausted one are not taken whole: of equals the first node is the exhausted one |
| Integral.IntegralFlowIsKept | src/flowc.c:548-708 | an exact flow of integers that could be exchanged is the flow found: every other vector is at a larger angle |
| Integral.ParIsExchanged | src/flowc.c:155-708 | LIMIT orders that each ask for as much as they provide, the same for all, exchange all of it, however many they are, up to 64, and whoever owns them |
| Positivity.PositiveIff | src/flowc.c:663-671 | for given order types, quote flags included, all drafts of all such cycles have positive quantities if and only if the types force it: all LIMIT, but for the cycles of two of a quote whose price or stock is ignored |
| Positivity.StarvedDraft | src/flowc.c:599-704 | for any order types that do not force it, a cycle of such orders is given, with unit stocks, whose draft has a node that gives nothing |
| Chemin.TresChemin.CalType | src/flowc.c:214-226 | the loop tells whether some order is LIMIT |
| Chemin.TresChemin.CalOmega | src/flowc.c:258-290 | the loop fills omega, raises exactly on a zero price or probability that is read, and returns the product; an ignored last price makes it one |
| Chemin.TresChemin.CalOwns | src/flowc.c:297-339 | the loops fill nbOwn, occOwn and ownIndex with the grouping and the class sizes |
| Chemin.TresChemin.CalGains | src/flowc.c:371-399 | the loop fills omegaCorrige with the prices corrected by the shared gain |
| Chemin.TresChemin.CalPiom | src/flowc.c:401-411 | the nested loop fills piom with the prefix products of the corrected prices |
| Chemin.TresChemin.FlowMaximum | src/flowc.c:449-479 | the loops fill fluxExact with the exact flow and return the exhausted node |
| Chemin.TresChemin.CalFloor | src/flowc.c:562-586 | the loop fills floor, the exhausted node taking its whole stock, or raises the error of the first node that has one |
| Chemin.TresChemin.CheckLimits | src/flowc.c:635-654 | the running index of the previous node makes the test of all LIMIT nodes against their predecessors |
| Chemin.TresChemin.SearchCube | src/flowc.c:599-690 | the loop over the masks keeps the first vertex of greatest distance among all, and tells whether a limit refused one |
| Chemin.TresChemin.Rounding | src/flowc.c:548-708 | the whole rounding: its status, its error, and the flowr it writes |
| Chemin.FlowcMaximum | src/flowc.c:45-119 | the kernel on arrays writes flowr, and for quotes the price and stock of the last node, exactly as Kernel.FlowcMaximum says, on every input and with the same errors; on an error flowr is left as it was, and at most an ignored stock has been undefined |
| Orders.YorderMatchQuality | src/yorder.c:243-277 | the loop over leading stars raises exactly on an empty quality, and otherwise tells whether what is required is met: without a star at its head by this very text, with stars by every text that begins with what comes after them |
| Orders.QualitiesMeet | src/yorder.c:261-275 | the relation between qualities that the search uses is this one, in the terms of the texts |
| Yflow.GetOmegaFlow | src/yflow.c:636-655 | the loop returns the product of the ranked prices, provided over required, zero for what cannot be executed |
| Yflow.YflowIsDraft | src/yflow.c:740-756 | the loop tells whether there are two nodes and all quantities are positive |
| Yflow.YflowMaxG | src/yflow.c:583-632 | the step of the aggregate: the rank first, then the mean probability |
| Yflow.MaxFlowIsGreatest | src/flowf--0.1.sql:113-123 | over drafts in any order, the aggregate is one of them, none is preferred to it, and it is empty only over no row |
| Yflow.MaxFlowForgets | src/yflow.c:595-601 | over any rows, the aggregate ignores all rows before one that cannot be executed |
| Ranking.RankIsProduct | src/yflow.c:636-655 | the rank of a draft is the product of the prices of its orders, as the kernel has them, without the last one when its price is ignored |
| Ranking.AggregateIsBest | src/yflow.c:583-632 | over drafts, no row has a greater product of prices than the aggregate; among rows of equal products none has a greater mean probability, and of equals the last row wins |
| Ranking.InsertionTakesBest | src/sql/algo.sql:115-138 | every cycle executed by an insertion is, at its turn, such a best row of the table, and the loop ends when none is left or 128 movements would be passed |
| Reduction.YflowReduce | src/yflow.c:668-736 | the nested loops in place subtract from each limited stock all that the executed flow took from it, raise if there is not enough, set the price found by a quote, and compute the flow again |
| Search.SearchIsChains | src/sql/algo.sql:43-58 | the recursive query fetches the paths of all chains of at most 64 orders that end in the new order, of orders of the book before their deadlines, with distinct stocks, and no others, and no growth raises |
| Search.ShortChainsKept | src/sql/algo.sql:43-58 | when at most 1024 paths have no more than k orders, the limit of the query keeps all chains of at most k orders |
| Cycles.FcreateTmpFailsIff | src/sql/algo.sql:38-40 | the search raises if and only if the order provides the quality it requires, or matches itself |
| Cycles.FcreateTmpSound | src/sql/algo.sql:41-62 | every row recorded is the draft of a cycle of matching orders of the book before their deadlines, with distinct stocks, at most 64 of them, the last being the new order |
| Cycles.FcreateTmpComplete | src/sql/algo.sql:41-62 | when the path limit is not hit, a flow is recorded if and only if it is such a draft |
| Cycles.NodesAreOrders | src/sql/algo.sql:48-60 | the nodes of a row recorded are the orders of its cycle, with their owners, stocks and quantities, and a probability of one |
| Cycles.ShortCyclesRecorded | src/sql/algo.sql:41-62 | when at most 1024 paths have no more than k orders, the drafts of all cycles of at most k orders are recorded, whatever the length of the others |
| Cycles.TableIsSmall | src/sql/algo.sql:41-62 | no more than 1024 cycles are recorded, each of at most 64 orders |
| Cycles.SameCycles | src/sql/algo.sql:107-113 | the search gives the same table whether the new order is already in the book or not |
| Matching.SpentIsDropped | src/yflow.c:697-706 | the executed cycle, reduced by itself, is not a draft any more |
| Exhaustion.RoundDropsSpent | src/yflow.c:697-706 | every row of the table that draws on a stock taken whole by the executed cycle is not a draft after the round |
| Exhaustion.TableAgrees | src/sql/algo.sql:41-62 | the rows recorded for an order, with or without quote flags, hold the same quantity of each stock they share |
| Exhaustion.RoundKeepsAgree | src/sql/algo.sql:136-137 | a round leaves rows that hold the same quantity of each stock they share, in the loop of a quote too, as long as no price is frozen on a stock that is read |
| Matching.RoundShrinks | src/sql/algo.sql:136-137 | a round of the loop leaves strictly fewer rows, all executable: the loop ends without the cap on movements, quotes included |
| Coherence.ReduceKeepsCached | src/yflow.c:686-725 | reducing a cached cycle by the best one raises nothing, and if a draft is left its nodes hold the stocks debited and its flow is what the kernel computes from them |
| Coherence.RoundKeepsCached | src/sql/algo.sql:116-137 | a whole round keeps the agreement of the table with the stocks |
| Coherence.LoopIsRun | src/sql/algo.sql:115-138 | from a table that agrees with the stocks the loop raises nothing, and each executed cycle agrees with the stocks left by those before |
| Freshness.InsertionStaysFresh | src/sql/algo.sql:115-138 | at every head of the loop of an insertion, each row of the table is what a new search in the book, as the cycles executed have left it, would find at the same time, the path limit included |
| Freshness.RoundKeepsFresh | src/sql/algo.sql:126-137 | one round keeps this: a row reduced by the executed cycle that stays a draft is the flow into which the same path closes in the debited book |
| Freshness.SearchReadsNoStock | src/sql/algo.sql:43-58 | the search of an order fetches the same paths, one by one, whatever the stocks that remain |
| Coherence.RunObservesLimit | src/sql/algo.sql:132-147 | over all its cycles together a limit order gives at most its price for what it receives |
| Coherence.RunGivesWithinStock | src/sql/algo.sql:115-138 | over all its cycles together the new order gives no more than its stock |
| Settlement.CachedExecutes | src/sql/algo.sql:287-372 | a cycle that agrees with the book is executed without any of the exceptions, and debits every order of each stock by the quantity of its node |
| Withdrawals.ExecutesIff | src/sql/algo.sql:287-377 | on any book, a cycle of distinct stocks is executed if and only if each of its stocks is held, by rows that agree and hold enough, each of its orders is in the book, and some stock is taken whole; otherwise the first node that fails, from the last one on, tells which exception is raised |
| Exchange.OnCreateCycle | src/sql/algo.sql:169-216 | the loop with rotating indices writes, for each order, what it gives to its successor and what it receives from its predecessor |
| Exchange.MovementsNumbered | src/sql/algo.sql:347-356 | the movements of an executed cycle have consecutive ids |
| Exchange.DoubleEntry | src/sql/algo.sql:195-208 | each movement is given in exactly one message and received in exactly one, with the same quantity and nature, and the two name each other's owners |
| Exchange.ReceivesFromPredecessor | src/sql/algo.sql:169-216 | for every node of an executed cycle, the message of its order goes to its user, and tells its stock after the cycle, that it gives its flow of its own quality to its successor, and receives the flow and the quality of its predecessor in the cycle |
| Histories.CycleMessages | src/sql/algo.sql:169-216 | all messages of a cycle carry the id of its first movement and the id of the order inserted; the movements given and received that they name are those of the cycle, in sequence |
| Histories.EachIsTold | src/sql/algo.sql:169-216 | each order of an executed cycle is told, by one message, to give its flow and to receive that of its predecessor |
| MarketRuns.DebitedIsValid | src/sql/algo.sql:299-326 | executing a cycle keeps the book well formed: unique ids, orders of one stock holding the same quantity and quality, each stock owned by an order of the book |
| MarketRuns.RoundOnMarket | src/sql/algo.sql:126-137 | one round on the market raises nothing, debits the book by the best cycle, and keeps book and table in agreement |
| Conservation.CycleConserves | src/sql/algo.sql:230-377 | a cycle executed changes, for no quality, the sum of what remains and what was moved |
| Conservation.MessagesTellMovements | src/sql/algo.sql:169-216 | what the messages of a cycle tell to have been given of a quality is what its movements give |
| Primitives.InsertLoopRuns | src/sql/algo.sql:115-138 | the loop on the market executes the cycles that the loop on the table alone finds, and leaves a well-formed book that agrees with the debited stocks, with every quality conserved; it raises exactly when a sum of quantities is out of the range of bigint |
| Supplies.LoopWithinSupply | src/sql/algo.sql:132-134 | over all cycles of the loop the new order receives no more than the stocks of the book that match what it asks for |
| Primitives.AcceptedHasCycles | src/sql/algo.sql:107-138 | the cycles of an accepted order agree, each at its turn, with the stocks left; the order gives no more than its own stock and receives no more than the stocks that match |
| Primitives.WithinSupplySucceeds | src/sql/algo.sql:88-154 | an accepted order is inserted whenever the stocks of the book that match what it asks for add up to a bigint |
| Primitives.LateSucceeds | src/sql/algo.sql:50-54 | an accepted order is inserted once all orders of the book are outdated, whatever it could receive before |
| Overflow.AcceptedOverflows | src/sql/algo.sql:132-134 | a book of two orders and an accepted order are given, whose insertion and whose quote raise out of range |
| Primitives.InsertOrderRuns | src/sql/algo.sql:88-154 | an order that asks for what it provides is refused whatever the book; another one raises out of range exactly when it would receive more than a bigint over its cycles, and nothing else; its limit exception and those of the execution are unreachable; the book stays well formed and every quality is conserved |
| Quotes.QuoteTableExecutable | src/sql/algo.sql:420-428 | the table of an order with quote flags holds executable cycles too, so the loop of the quote ends |
| Quotes.QuoteLoopRuns | src/sql/algo.sql:424-473 | on a table that agrees with the stocks the loop of a quote visits the cycles of the matching loop, freezes no price, and raises exactly when a sum is out of range |
| Quotes.QuotePredictsOrder | src/test/py/test_ti.py:174-201 | on the same book and at the same time a quote and the order under the same id both raise or both succeed, visit the same cycles in the same order, and end with the same quantities received and given |
| Answers.QuoteAnswersOrder | src/sql/algo.sql:481-485 | the answer of the quote of a new order, qtt_reci and qtt_give, is what the insertion of the order receives and gives, and one is Ok if and only if the other is |
| Answers.QuoteAnswersLaterOrder | src/test/py/test_ti.py:183-193 | so it is when the order comes under a later id |
| Answers.QuotePrimitiveAnswers | src/sql/prims.sql:350-358 | in the terms of the messages: a quote primitive answers what the messages of the order primitive of the same terms tell it to receive and to give |
| QuotePrices.QuoteKeepsPrice | src/sql/algo.sql:424-481 | whatever the flags, a quote has one price: that of the order or, when it is ignored, what its first cycle exchanges; every cycle ends at this price, a LIMIT order is within it over each cycle and over all together, and the exception on the limit is never raised |
| QuoteErrors.QuoteRaisesOnly | src/flowc.c:100-106 | for the order types of the quotes, once the cycles are found the loop of a quote raises only when a sum or a flow is out of range: no row lacks what the executed cycle takes, and an unlimited stock is not asked for anything |
| QuoteErrors.OtherTypesRaise | src/yflow.c:697-706 | with a type that ignores the price of a limited stock, which none of the quotes has, a row that gives less than the executed cycle makes the reduction raise |
| Renaming.NamedCycles | src/sql/algo.sql:29-62 | two orders of the same terms, both new to the book, have the same table of cycles but for the ids of their node, quote flags included |
| Renaming.QuoteForgetsName | src/sql/algo.sql:386-488 | the quotes of two orders of the same terms raise the same error or visit the same cycles but for the ids of their node, with the same totals and the same price, quote flags included |
| Renaming.QuotePredictsLaterOrder | src/test/py/test_ti.py:183-193 | a quote executed under its own id and the order executed under a later one both raise or both succeed, over the same cycles but for the ids of the node, with the same quantities received and given |
| Runs.ExecutesIff | src/sql/algo.sql:88-154 | an order or quote primitive is executed if and only if it does not ask for what it provides and what it would receive over its cycles is a bigint |
| Runs.RunConserves | src/test/py/test_ti.py:237-272 | over every run of executed orders and quotes the book stays well formed, and for each quality what is held grows by exactly what the orders submit |
| Runs.MarketConserves | src/test/py/test_ti.py:237-272 | from an empty market, for each quality: submitted equals remaining plus moved |
| Histories.OrdersAccount | src/sql/prims.sql:84-91 | over every run from the empty market, for each order ever inserted, in the terms of its submission: every message of its id tells its user, owner, type and quantities, that it gives its quality and receives one that it asks for; what is left of its stock and what all messages tell it to have given make what it submitted; if it was submitted as a limit order, over all cycles of the run together, those of later orders included, it gives at most its price for what it receives |
| Histories.FoundForADay | src/sql/algo.sql:50-54 | an order of a run can be in a chain of a search if and only if the search is made within a day of its submission |
| Examples.BilateralExchange | src/test/sql/tu_1.sql:8-13 | two limit orders as in this session, 5 a for 10 b and 10 b for 20 a, of any owners and submitted at any times: when the second is executed within a day of the first, each gives 10 and receives 10, 0 and 10 are left in the stocks, and the two messages carry the cycle and the movements printed there; later, nothing is exchanged |
| Histories.CycleTells | src/sql/algo.sql:169-216 | the messages of an executed cycle are about orders of the book and within their limits, and tell of each stock what the cycle takes from it |
| MarketDay.DayConserves | src/sql/pushpull.sql:115-129 | in every interleaving of pushes, aborts, failures and retries of a day, what has been executed is a run of the market from the empty book, and conserves every quality |
| MarketDay.DayKeepsLimits | src/sql/pushpull.sql:115-129 | in every interleaving of a day, for each order executed, in the terms of what was pushed: it is in the book, its messages are about it, what they tell it to have given is what is missing from its stock, and if it was pushed as a limit order it is within its price over all cycles of the day |
| MarketDay.OutcomesGrant | src/sql/pushpull.sql:115-145 | an order or quote that does not ask for what it provides is executed at its turn sooner or later: its execution succeeds at some later time, at the latest when the book is outdated |
| MarketDay.CanEmptyIff | src/sql/pushpull.sql:115-145 | from any state of a day, some continuation executes every pending primitive if and only if none of them asks for what it provides |
| MarketDay.RejectedBlocks | src/sql/pushpull.sql:115-145 | once an order or quote that asks for what it provides is committed, in every continuation and at any time it stays in the stack and neither it nor anything committed after it is executed; at the head it stops STACK_EXECUTED too |
| MarketDay.SameQualityBlocks | src/sql/prims.sql:60-72 | a primitive submitted with equal qualities is enough for that |
| MarketDay.ExecutedGrowsIff | src/sql/pushpull.sql:115-129 | STACK_EXECUTED never decreases, in any interleaving of a day, if and only if every primitive with an id below the counters asks for what it provides, as when the sequence starts at the counters or above |
| MarketDay.StaysInPhase121 | src/sql/openclose.sql:127-139 | while a primitive pending at the revocation asks for what it provides, no continuation leaves phase 121, at any time |
| MarketDay.ClosesIff | src/sql/openclose.sql:120-166 | at the revocation, some continuation of the day reaches phase 202 if and only if no pending primitive asks for what it provides |
| MarketDay.TruncatedIff | src/sql/openclose.sql:120-176 | at the revocation, some continuation of the day truncates a committed primitive if and only if a push is in flight and no pending primitive asks for what it provides |
| MarketStore.SelectMax | src/sql/algo.sql:116 | over any ranked rows, the scan with its guard returns the aggregate of the rows that are drafts |
| MarketStore.UpdateTable | src/sql/algo.sql:136 | every row is reduced, or the first error is raised |
| MarketStore.RunQuoteLoop | src/sql/algo.sql:424-473 | the loop of the quote, which ends, visits the cycles of Quotes.QuoteLoop, and raises or returns its sums and the price of the first cycle |
| MarketStore.MakeQuote | src/sql/algo.sql:386-488 | the quote as it runs is Quotes.ProduceQuote, its limit and range exceptions included |
| MarketStore.Tables.TakeStock | src/sql/algo.sql:298-326 | the three exceptions on a stock, and the debit of every order that holds it |
| MarketStore.Tables.ExecuteFlow | src/sql/algo.sql:230-377 | the loop with rotating index updates the book and makes the movements of Book.ExecuteFlow |
| MarketStore.Tables.MatchingLoop | src/sql/algo.sql:115-138 | the loop on the tables is MarketRuns.InsertLoop, its sums and its exceptions included |
| MarketStore.Tables.InsertOrder | src/sql/algo.sql:88-154 | the insertion on the tables leaves the market of Primitives.InsertOrder, or raises its error |
| MarketStore.Tables.Execute | src/sql/pushpull.sql:115-145 | the transaction of an order or a quote leaves the market of Runs.Execute, or raises its error and leaves the book and the messages as they were |
| Stack.Fifo | src/sql/pushpull.sql:67-74 | in every interleaving with aborts, failures and retries, ids are committed in increasing order; what was executed is what was committed first, once each and in that order, at times that do not decrease, each succeeding at its turn, and the stack holds the rest |
| Stack.StackDoneIff | src/sql/pushpull.sql:41-51 | in every interleaving of a day fstackdone holds exactly when no committed primitive is pending, if and only if the sequence starts above the counters |
| Phases.ClientsSubmitIff | src/sql/openclose.sql:111-125 | in every interleaving of the first day a client can call a push exactly in the phases 102 and 120 |
| Phases.NothingIsTruncated | src/sql/openclose.sql:127-176 | when no push is in flight at the revocation, the truncation of phase 202 finds an empty stack in every interleaving |
| Phases.PhaseLeftIff | src/sql/pushpull.sql:41-51 | the phases 121 and 201 are left, for 200 and 202, if and only if what has been executed at the reading of STACK_EXECUTED is what had been committed at the reading of STACK_TOP, whatever happens between the two |
| Phases.TruncationLeaves | src/sql/openclose.sql:170-176 | after the truncation the stack is empty, the sequence restarts at 1, and no transaction that has written in the stack is open; the counters keep the ids of the day |
| Phases.NextDayTrustedIff | src/sql/openclose.sql:168-176 | with the counters and the restarted sequence that a first day leaves, fstackdone can be trusted on the next day, in every interleaving, if and only if nothing was committed on the first |
| FlowText.NdboxToStr | src/yflow.c:130-168 | the loop over the nodes writes the text form Print |
| FlowText.NodeText | src/yflow.c:141-161 | the text of a node: its type, id, stock, owner, quantities required, provided and remaining, each followed by a comma and a space, then its probability, in parentheses |
| FlowText.PrintedNearest | src/yflow.c:141-161 | the millionths printed for a probability are within half of one of it; of two equally near the even one is printed |
| FlowText.LongestNumber | src/yflowscan.l:48-50 | no longer beginning of the text is a number: the scanner takes the longest match |
| FlowText.NumberLengthIsLiteral | src/yflowscan.l:48-50 | what the scanner takes for a number matches the pattern of a number |
| FlowText.ScanPrinted | src/yflowscan.l:48-61 | a printed flow is scanned into the tokens of its nodes, signs becoming garbage |
| FlowText.ExponentScales | src/yflowscan.l:48-50 | a number with an exponent, in any form, is scanned as one token whose value is the mantissa multiplied or divided by the power of ten |
| FlowGrammar.Yyparse | src/yflowparse.y:49-98 | the loop that reads the nodes one after the other and adds each to the flow is the parser ParseBox, its error included |
| FlowGrammar.ParserIsGrammar | src/yflowparse.y:49-98 | the parser returns a flow if and only if the left-recursive productions derive it from the tokens, with valid types and at most 64 nodes; otherwise it raises |
| FlowGrammar.PrintedReadsBack | src/yflowparse.y:49-98 | a printed flow is read back, probabilities at six decimals, if and only if it has at most 64 nodes of valid types and nothing is printed with a sign; otherwise reading raises |
| FlowGrammar.SixDecimalsReadBack | src/yflow.c:141-161 | with six-decimal probabilities the nodes read are the nodes printed |
| FlowGrammar.TextIsStable | src/yflow.c:141-161 | reading and printing again gives the same text, whatever the probabilities |
| FlowInput.ComputedAgain | src/yflow.c:115-119 | a computed flow whose quantities are set, quote flags included, is computed again to itself |
| FlowInput.TextRestoresFlowIff | src/yflow.c:99-124 | the text of a computed flow, read back, gives this very flow with its quantities exchanged, but for the quantity of a single node, which the code leaves unset; unless its last stock was left undefined by a quote without draft, and then reading raises |

## Left out

- Floating-point rounding: prices, products and roots are exact.
- Geography (`src/earthrad.c`): positions match always.
- Child orders and the removal of orders: phase 200 pushes them to the stack, but their execution is not modelled.
- Name, owner and quality checks at submission, the table of owners, and JSON encoding.
- Timetables, clocks and delays: time decides freely whether a phase ends; the cleaning of outdated orders in phase 102 is not modelled, an outdated order is skipped by the search.
- The phases before 102 and after 203, and the days after the first but for the counters they start from.
- The exclusive lock that makes an insertion abort at once, and the background workers that call the consumer and the phases.
- yflow_grow_forward, the matrix and JSON forms of a flow, and the internal form of its text.
- The path limit cuts a list of paths that the model computes in full, while the database stops fetching; no path raises, so the result is the same.
- MarketStore.Tables.InsertOrder: on an error nothing is stated of the tables; MarketStore.Tables.Execute states that the transaction restores them.
- MarketStore.Tables.ExecuteFlow: an order that is not in the book is the error OrderMissing, where the code would go on with nulls; Settlement.CachedExecutes shows that the loop never meets it.
- MarketDay.ClosesIff: phase 200 ends freely, since the removals that it pushes are not executed in the model; every primitive pushed is taken for an order or a quote.
- MarketDay.TruncatedIff: the same holds of phase 200 here.
- Exhaustion.RoundKeepsAgree: not stated for a quote whose price is frozen while its stock is not unlimited; its rows then set their own stocks apart. The primitives never ask for such a quote.
- Orders.YorderMatchQuality: a required quality made only of stars is compared within its length; the code tests one byte past its end.
- FlowInput.TextRestoresFlowIff: the widths of the fields are those of the C structure.
- Phases.ClientsSubmitIff: the states are those of the first day, from counters at zero.
