# A verified model of the quote server's feed synchronisation

The quote server keeps a copy of an exchange's order books. For each product a feed of numbered
messages arrives on one thread; a full order book is requested on a second thread, and what was
received meanwhile is merged into it; a third thread hands the messages over. Each message becomes a
change of the book, the market collects the changes of all products in a hash multimap, applies them
product by product, and publishes each touched book once per turn. This project models that path and
proves what it keeps, from the exchange's history to the published book.

## Structure

| file | what it holds |
|---|---|
| `OrderBook.dfy` | the two vectors of a book: value functions, and the class that edits them in place |
| `ProductChanges.dfy` | incremental changes and resets, their replay, the flattening and cut laws |
| `MapBook.dfy` | the book as a map from (side, id) to quote, and its refinement by the vectors |
| `Positions.dfy` | every position of the two vectors under each event and each feed message; what a translation bears |
| `Reordering.dfy` | which changes, full order books included, may be applied in any order: exactly for two, then for batches |
| `VectorReordering.dfy` | the same on the vectors of any book, ids listed twice included |
| `ResetBatches.dfy` | the orders of a batch that leave the true book: exactly, if it holds a full order book |
| `SizeLedger.dfy` | the total size of each side, accounted for event by event |
| `Messages.dfy` | feed messages, queue entries, translation to changes, the message handler class |
| `FeedProduct.dfy` | the protocol as atomic steps and runs, and the class whose methods are those steps |
| `Invariants.dfy` | epochs, conservation, order, and the requesting mode in every reachable state |
| `Schedule.dfy` | schedule independence on a contiguous feed |
| `Exchange.dfy` | the exchange's history and its refinement by the local book; holes in the merged buffer |
| `Strays.dfy` | tickers and other messages that repeat a number: when they do harm, and how |
| `NoRegress.dfy` | when the book never goes back, and checkable conditions for following the exchange |
| `Threads.dfy` | the three threads instruction by instruction with the mutex; refinement and progress |
| `Progress.dfy` | handing over, the wrap-around, and every atomic run as an interleaving |
| `FeedClient.dfy` | routing of documents to products, and non-interference |
| `Market.dfy`, `MarketRuns.dfy` | the market's drain and its runs |
| `Subscriptions.dfy` | products that come and go during a run of the market |
| `MarketTurns.dfy` | a turn of the market in its two critical sections, and its refinement of the atomic turn |
| `EndToEnd.dfy` | all of it composed: published books are true books of the exchange |
| `CrossedBatch.dfy` | a run whose published book is false because the multimap reordered a batch |

Conventions. A class models each object of the program whose methods update it; each method is proved
equal to a function of the old state, and the theorems are about runs of those functions. A step whose
thread is not at that point leaves the state alone, so a run is any list of steps. Prices and sizes are
exact reals where the program has doubles. Sequence numbers are 64-bit with wrap-around in the
successor, as in the program. What REST replies and which order a hash multimap iterates in are
parameters, so the theorems hold for all of them.

Where the code and its documentation differ, the model follows the code:

- `docs/QsServerArchitecture.md:26` promises consecutive numbers. Live messages have that
  (`EveryReachableState`), merged ones do not: the merge keeps whatever is numbered above the order
  book. `GapFreeIff` says exactly when what is merged is live and consecutive, for every queue, with
  leftover order books, repeated numbers and any order; `GapMessageIsLost` and `LostMessageLosesOrder`
  show the failing family.
- The feed that is asked for has tickers and heartbeats beside the full channel
  (`src/coinbase/CoinbaseFeedClient.cpp:16-24`), and every document with a number is counted. Such a
  message changes no book, but its number can do harm in two ways. One that comes first under the number
  that is expected takes the place of the message (`ExpectedIsQueuedIff`, `StrayTakesThePlace`);
  `StrayTracksIff` says exactly when the book is still right then. And one that is the last to be merged
  into an order book leaves its own number as the last one, so that the next message looks like a gap or
  too old (`BufferedStrayIff`, exactly when). `ShadowedMessageLosesOrder` and `LaggingTickerLosesOrder`
  are runs that lose an order for good in these two ways, on feeds from which nothing is missing.
- An order is removed, resized and matched in the list opposite to the side it is added to.
  `RemoveUndoesAddIff` says what this means for a caller that names the same side twice.
- A failed request is never repeated: `LeavesRequestingIff`.
- The changes of a batch may be applied in another order than they arrived, because a hash multimap
  holds them. `CommuteIff` says exactly when two changes may trade places, and `FalseBookIsPublished`
  is a run in which they may not and a book that the exchange never had is published.

The exchange's history is folded with the code's own meaning of the messages, in which done, change and
match act on the side opposite to the one they name. The true book is the result of that fold, so the
theorems say that the copy follows the feed as this code reads it, not that this reading is the exchange's.

The theorems that follow the exchange assume what no client can check alone: messages are those of the
history, or change no book and neither come first under a number at which the history changes the book
nor leave a wrong number when an order book is installed; full order books are true ones; and an id is
opened only when it is new on its side.

## Model

| member | source | states |
|---|---|---|
| `OrderBooks.IndexOf` | src/OrderBook.cpp:35-36 | the first order with an id, or the end when there is none |
| `OrderBooks.OrderBook.FindIf` | src/OrderBook.cpp:35-36 | the linear search finds that first position |
| `OrderBooks.OrderBook.Init` | src/OrderBook.cpp:14-23 | the two vectors become the given ones, whatever they were |
| `OrderBooks.OrderBook.AddOrder` | src/OrderBook.cpp:25-31 | the new book, with the order appended to its own side |
| `OrderBooks.OrderBook.RemoveOrder` | src/OrderBook.cpp:33-45 | the new book, without the first order of that id on the opposite side, unchanged if there is none |
| `OrderBooks.OrderBook.UpdateOrder` | src/OrderBook.cpp:47-65 | the new book, with that order resized on the opposite side |
| `OrderBooks.OrderBook.MatchOrders` | src/OrderBook.cpp:67-104 | the new book, with maker and then taker debited; no maker, no effect |
| `Positions.OpenAt` | src/OrderBook.cpp:25-31 | an opened order goes to the end of the vector of its side, every position before it and the other vector unchanged |
| `Positions.DoneAt` | src/OrderBook.cpp:33-45 | the first order with the id goes out of the vector opposite to the side named; positions before it stay, those behind it move down by one; with no such order nothing changes |
| `Positions.ChangeAt` | src/OrderBook.cpp:47-65 | the first order with the id in that vector has the new size at its place; every other position, ids and prices are unchanged |
| `Positions.MatchAt` | src/OrderBook.cpp:67-104 | the first maker and, if the maker is there, the first taker are reduced at their places, and nothing else changes; without a maker nothing at all |
| `ProductChanges.UpdateOrderBook` | include/product/ProductChangeResetOrderBook.hpp:18-33 | replays any change, nested merges included, on the book in place, and reports an update |
| `ProductChanges.ResetSplits` | include/product/ProductChangeResetOrderBook.hpp:24-28 | a reset with a longer merge list is the shorter one followed by the rest as ordinary changes |
| `ProductChanges.ResetCutsHistory` | include/product/ProductChangeResetOrderBook.hpp:24-28 | the book after a reset does not depend on the book or the changes before it |
| `ProductChanges.FlatteningPreservesMeaning` | include/product/ProductChangeResetOrderBook.hpp:18-33 | nested resets flatten, to any depth, into resets without merges and increments, with the same result on every book |
| `MapBooks.AsMap` | src/OrderBook.cpp:33-45 | the map view holds exactly what a search of the vectors finds |
| `MapBooks.EventRefines` | src/OrderBook.cpp:25-104 | each operation on the vectors commutes with the map operation, and keeps ids distinct |
| `MapBooks.ChangesRefine` | include/product/Product.hpp:32-37 | so does any admissible list of changes, resets and merges included |
| `MapBooks.EventKeepsOthers` | src/OrderBook.cpp:25-104 | every operation leaves all other orders and their relative positions alone, even with duplicate ids |
| `MapBooks.RemoveUndoesAddIff` | src/OrderBook.cpp:25-45 | for an id that is new on the side it is added to, removing undoes adding exactly when the two calls name different sides |
| `Reordering.EventsCommuteIff` | src/OrderBook.cpp:25-104 | two events give the same map in both orders on every book exactly when they are compatible, a test on the two events alone |
| `Reordering.IncompatibleDiffer` | src/Market.cpp:42-50 | a book on which an incompatible pair of events gives different results |
| `Reordering.CommuteIff` | include/product/ProductChangeResetOrderBook.hpp:18-33 | the same for any two changes: a full order book, with its merges, may trade places exactly with an event that has nothing to do on what it leaves, or with one that leaves the same |
| `Reordering.SwapAdmissibleIff` | src/Market.cpp:77-93 | swapping two compatible changes keeps every opened id new exactly when it does not put a full order book in front of the opening of an order that it lists |
| `Reordering.ReorderingIsHarmless` | src/Market.cpp:77-93 | every order of a batch in which no change comes before one that it may not precede, full order books included, gives the same map and stays admissible |
| `Reordering.RearrangingIsHarmless` | src/Market.cpp:77-93 | every permutation does, if each change may come before each earlier one |
| `Reordering.ReorderedBatches` | src/Market.cpp:62-96 | the same for batch after batch, each in an order of its own |
| `ResetBatches.AnyOrderIff` | src/Market.cpp:77-93 | for a batch of any length with a full order book in it, every order gives the same map on every map exactly when all its full order books leave the same and its events have nothing to do on that |
| `ResetBatches.AnyOrderKeepsIff` | src/Market.cpp:77-93 | on the vectors, every order of such a batch leaves the true book with each id once a side exactly when, besides, it opens no order |
| `ResetBatches.KeepsIff` | src/Market.cpp:77-93 | one order of such a batch leaves the true book in the vectors, from any book, exactly when it does so from the empty one, or puts no change before one that it may not precede |
| `ResetBatches.FromLastKeeps` | include/product/ProductChangeResetOrderBook.hpp:24-28 | it is enough to look from the last full order book on |
| `ResetBatches.BatchesOnVectors` | src/Market.cpp:62-96 | batch after batch, each in an order of its own that keeps, the vectors hold the true map |
| `VectorReordering.EventOnPile` | src/OrderBook.cpp:25-104 | on any book, ids listed several times included, an event acts on the orders of each id on each side by themselves, but for the test that the maker is there |
| `VectorReordering.IndependentIff` | src/OrderBook.cpp:25-104 | two events leave the same orders under every id, in the same relative order, in both orders on every book exactly when they are independent, a test on the two events alone |
| `VectorReordering.TradePlacesIff` | include/product/ProductChangeResetOrderBook.hpp:18-33 | the same for any two changes, full order books included |
| `VectorReordering.RearrangingKeepsOrders` | src/Market.cpp:77-93 | every permutation of a pairwise independent batch, on any book, leaves the same orders under every id in the same relative order |
| `VectorReordering.RearrangedBatchesKeepOrders` | src/Market.cpp:62-96 | the same for batch after batch, so that each side ends with the same orders, each as often |
| `SizeLedger.EventIsBooked` | src/OrderBook.cpp:25-104 | an event moves a side's total by what is booked for it, duplicates or not |
| `SizeLedger.LedgerBalances` | src/OrderBook.cpp:25-104 | over any list of events, each side's total is the initial one plus opened sizes and changes, minus sizes at removal and matched sizes that took effect |
| `SizeLedger.MatchBalancesIff` | include/product/ProductChangeMatch.hpp:38-41 | a match of a size other than zero keeps bids minus asks exactly when it finds both orders or no maker, and changes nothing exactly when there is no maker |
| `Messages.CoinbaseFeedMessageHandler.constructor` | src/coinbase/CoinbaseFeedMessageHandler.cpp:17-18 | a handler for one product whose listener has been given nothing |
| `Messages.CoinbaseFeedMessageHandler.GetProductChange` | src/coinbase/CoinbaseFeedMessageHandler.cpp:27-109 | the recursive loops build the translation of a message, to any depth of merges |
| `Messages.CoinbaseFeedMessageHandler.OnMessageReceived` | src/coinbase/CoinbaseFeedMessageHandler.cpp:20-25 | the listener gets the change if there is one, and nothing else |
| `Messages.TranslationKeepsMeaning` | src/coinbase/CoinbaseFeedMessageHandler.cpp:27-109 | translating and replaying equals playing the open, done, match, change and full-book messages directly in order, all other kinds doing nothing |
| `Positions.TranslationBears` | src/coinbase/CoinbaseFeedMessageHandler.cpp:27-109 | to any depth of merging there is one change for each entry that counts, in order, with the product's id, the entry's number, the fields of its kind, and the side sell exactly when the text is sell; a full order book bears its bids as bids and its asks as asks |
| `Positions.OpenMessage` | src/coinbase/CoinbaseFeedMessageHandler.cpp:60-67 | an open that says sell adds its order at the end of the asks, any other one at the end of the bids |
| `Positions.DoneMessage` | src/coinbase/CoinbaseFeedMessageHandler.cpp:68-74 | a done that says sell takes the first order with its id out of the bids, any other one out of the asks |
| `Positions.MatchMessage` | src/coinbase/CoinbaseFeedMessageHandler.cpp:75-84 | a match that says sell reduces a maker among the bids and a taker among the asks, any other one the other way round |
| `Positions.ChangeMessage` | src/coinbase/CoinbaseFeedMessageHandler.cpp:85-92 | a change that says sell resizes an order of the bids, any other one an order of the asks |
| `Positions.OtherMessage` | src/coinbase/CoinbaseFeedMessageHandler.cpp:93-108 | a message of any other kind, ticker, receipt or heartbeat, gives no change |
| `FeedProduct.CoinbaseFeedProduct.constructor` | src/coinbase/CoinbaseFeedProduct.cpp:15-24 | the initial state: requesting, number zero, empty queue |
| `FeedProduct.CoinbaseFeedProduct.RequestFullOrderBook` | src/coinbase/CoinbaseFeedProduct.cpp:26-33 | may be called only when the old thread is past its critical section; a request is then under way |
| `FeedProduct.CoinbaseFeedProduct.OnMessageReceived` | src/coinbase/CoinbaseFeedProduct.cpp:35-56 | is the receive step, and keeps the mode: requesting exactly when the last number is zero |
| `FeedProduct.CoinbaseFeedProduct.MergeQueue` | src/coinbase/CoinbaseFeedProduct.cpp:95-111 | the loop empties the queue into exactly the entries above the order book, in order, and leaves the number of the last one |
| `FeedProduct.CoinbaseFeedProduct.RequestFullOrderBookImpl` | src/coinbase/CoinbaseFeedProduct.cpp:68-120 | is the fetch step, for empty, unnumbered, zero-numbered and usable replies |
| `FeedProduct.CoinbaseFeedProduct.TakeMessages` | src/coinbase/CoinbaseFeedProduct.cpp:126-133 | is the drain step, which takes nothing while requesting |
| `FeedProduct.CoinbaseFeedProduct.HandleNextMessage` | src/coinbase/CoinbaseFeedProduct.cpp:134-137 | is the delivery step, and the listener has exactly the translation of what was handed over |
| `Invariants.EveryReachableState` | src/coinbase/CoinbaseFeedProduct.cpp:35-138 | in every run on any feed: the mode, epochs of an order book and consecutive messages, and merges strictly above their order book |
| `Invariants.RunConserves` | src/coinbase/CoinbaseFeedProduct.cpp:39-55 | over every run, each received message is held exactly once or was dropped exactly once as too old, as a gap trigger, or as covered by an order book |
| `Invariants.RunKeepsOrder` | src/coinbase/CoinbaseFeedProduct.cpp:97-112 | what is held, merged or not, is a subsequence of what was received |
| `Invariants.OnlyBuffers` | src/coinbase/CoinbaseFeedProduct.cpp:39-42 | without a usable reply the queue only grows by what is received and nothing new is taken |
| `Invariants.LeavesRequestingIff` | src/coinbase/CoinbaseFeedProduct.cpp:78-119 | a requesting product synchronises during a run exactly when its thread still runs and the first reply has a number other than zero, with or without bids and asks; a failed request is final |
| `Progress.EverythingIsHandedOver` | src/coinbase/CoinbaseFeedProduct.cpp:123-139 | a synchronised product hands over all that it holds, in order and nothing else, in one turn of its loop |
| `Progress.NothingIsTaken` | src/coinbase/CoinbaseFeedProduct.cpp:130-133 | while an order book is awaited the loop takes nothing |
| `Progress.WrapAroundLooksLikeGap` | src/coinbase/CoinbaseFeedProduct.cpp:43-46 | after the greatest number, in any run, every message but one numbered zero is taken for a gap and not kept |
| `Schedule.ScheduleIndependence` | src/coinbase/CoinbaseFeedProduct.cpp:35-138 | contiguous feed, one order book, any interleaving: the result is that book with exactly the messages above it in order, and no gap is found |
| `Schedule.SameFeedSameBook` | src/coinbase/CoinbaseFeedProduct.cpp:35-138 | two interleavings of one feed end in the same book |
| `Exchange.ReachLeads` | src/coinbase/CoinbaseFeedProduct.cpp:97-111 | merged entries that count on from a number, inert messages of any number passed over and order books merged into order books included, lead from the true book of that number to the true book they reach |
| `Exchange.LogFollows` | src/coinbase/CoinbaseFeedProduct.cpp:93-115 | a log of epochs with credible messages and true order books replays to the exchange's book at its head, from any book |
| `Exchange.LocalBookTracksExchange` | src/coinbase/CoinbaseFeedProduct.cpp:35-138 | after each entry handed over, across any gaps and new order books and among tickers and heartbeats, the local book equals the exchange's at that entry's head |
| `Exchange.GapFreeIff` | src/coinbase/CoinbaseFeedProduct.cpp:97-111 | merging any queue at all leaves live and consecutive entries from the order book on exactly when the order book has reached the queue's floor |
| `Exchange.ContiguousBufferIff` | src/coinbase/CoinbaseFeedProduct.cpp:97-111 | a buffered contiguous feed merges consecutively exactly when it began no later than one above the order book |
| `Exchange.GapMessageIsLost` | src/coinbase/CoinbaseFeedProduct.cpp:43-46 | in every run that finds a gap, then buffers at least one message of the contiguous feed after it, and then installs an order book older than the message that revealed the gap: that message is nowhere, what is merged has a hole, and the product counts itself up to date |
| `Exchange.LostMessageLosesOrder` | src/coinbase/CoinbaseFeedProduct.cpp:43-46 | a valid history and a run of authentic messages and true order books, both given, after which the local book is not the exchange's at the number the product counts |
| `Strays.ExpectedIsQueuedIff` | src/coinbase/CoinbaseFeedProduct.cpp:43-55 | after any other message, a synchronised product still queues the one it expects exactly when the other did not have its number |
| `Strays.BufferedStrayIff` | src/coinbase/CoinbaseFeedProduct.cpp:95-113 | an order book installed over a buffer with an inert message in it and without: what is handed over means the same, but the next message is queued exactly when the inert one is not merged, or not last, or repeats the number before it; otherwise it is lost, as a gap if the number lags and as too old if it runs ahead |
| `Strays.LaggingTickerLosesOrder` | src/coinbase/CoinbaseFeedProduct.cpp:104 | a valid history and a run, both given, with true order books and no message missing, in which a ticker that lags turns the count back and an order is lost for good; without the ticker it is held |
| `Strays.StrayTakesThePlace` | src/coinbase/CoinbaseFeedProduct.cpp:43-55 | in every run, however interleaved, in which a message comes first under the expected number and the contiguous feed from that number follows, it stays in the place of the one it repeats, and no gap is found |
| `Strays.StrayTracksIff` | src/coinbase/CoinbaseFeedMessageHandler.cpp:93-101 | after any faithful run, an inert message of the expected number keeps the book at the exchange's exactly when the true message of that number is inert too or has nothing to do on the true book before it |
| `Strays.ShadowedMessageLosesOrder` | src/coinbase/CoinbaseFeedProduct.cpp:49-55 | a valid history and a run, both given, with a true order book and no message missing, in which a ticker hides an order from the book |
| `NoRegress.BookNeverGoesBack` | src/coinbase/CoinbaseFeedProduct.cpp:43-54 | if no order book is older than the last message accepted before it was requested, no later entry is older than an earlier one, whatever was buffered |
| `NoRegress.MergedInOrder` | src/coinbase/CoinbaseFeedProduct.cpp:97-111 | if in addition what is buffered does not decrease, or the floor is reached, what is merged is in order |
| `NoRegress.CheckedIsFaithful` | src/coinbase/CoinbaseFeedProduct.cpp:95-113 | acceptable messages in any order, true order books, and conditions on the number of an order book that a client can check when it arrives, if it can tell the history's messages from the rest, make a run meet the hypotheses of the refinement, and make the merged messages of the history consecutive |
| `NoRegress.CheckedRunsTrackExchange` | src/coinbase/CoinbaseFeedProduct.cpp:35-138 | under those conditions the local book follows the exchange and never backwards, and the merged messages of the history are consecutive |
| `Threads.InterleavingsAreRuns` | src/coinbase/CoinbaseFeedProduct.cpp:26-138 | every interleaving of single instructions of the three threads is a run of atomic steps: it has always handed over what that run has, and whenever the mutex is free the queue, number, flag and taken messages are that run's, so the flag is set exactly when the number is zero |
| `Progress.EveryRunHappens` | src/coinbase/CoinbaseFeedProduct.cpp:26-138 | conversely, every run of atomic steps is what some interleaving of the threads does, with the shared variables as the run leaves them |
| `Threads.JoinAndInstallAreSafe` | src/coinbase/CoinbaseFeedProduct.cpp:26-46 | in every interleaving the join under the mutex meets only a thread past its critical section, a request is begun only when the one before it is over, there is one request more than gaps except while the receiver is about to begin one, and while an order book is installed no gap has been found since it was requested |
| `Threads.MutexIsReleased` | src/coinbase/CoinbaseFeedProduct.cpp:26-33 | from every reachable state the mutex can be released within a bounded number of instructions, none of which waits for it |
| `Threads.EveryScheduleReleases` | src/coinbase/CoinbaseFeedProduct.cpp:26-33 | every schedule that runs the holder, or the thread it joins, that often releases the mutex, whatever else it runs in between |
| `FeedClient.ProductsDoNotInterfere` | src/coinbase/CoinbaseFeedClient.cpp:95-103 | each product is in the state of its own run on the documents with its id, a type and a sequence number |
| `FeedClient.CoinbaseFeedClient.OnMessageReceived` | src/coinbase/CoinbaseFeedClient.cpp:74-103 | a document reaches the product it names, if subscribed, and no other |
| `FeedClient.CoinbaseFeedClient.Subscribe` | src/coinbase/CoinbaseFeedClient.cpp:131-137 | a new product starts in the initial state, a known one is kept |
| `FeedClient.CoinbaseFeedClient.Unsubscribe` | src/coinbase/CoinbaseFeedClient.cpp:146-147 | exactly that product is gone |
| `Markets.Product.OnProductChanges` | include/product/Product.hpp:24-49 | the book after all the changes, and one publication of it, or none for no changes |
| `Markets.Market.OnProductChange` | src/Market.cpp:42-50 | the new change is put where the multimap may put it; the pending changes stay grouped and gain exactly it |
| `Markets.GroupedIffFits` | src/Market.cpp:42-50 | a change put into grouped changes keeps them grouped exactly next to its own product's, or at an edge of a group when there are none |
| `Markets.SomePlaceFits` | src/Market.cpp:42-50 | there is always such a place, so a change can always be taken |
| `Markets.Market.Subscribe` | src/Market.cpp:108-112 | the market with that product: a new one starts with an empty book, a known one and all others are kept; the same function is the step of the market's runs |
| `Markets.Market.GroupEnd` | src/Market.cpp:80-85 | the inner loop takes the maximal run of changes of one product |
| `Markets.Market.ApplyGroup` | src/Market.cpp:87-92 | a group changes its product only, and is dropped when there is none |
| `Markets.Market.ProcessGroup` | src/Market.cpp:77-94 | one turn of the outer loop |
| `Markets.Market.ProcessProductChanges` | src/Market.cpp:62-96 | one turn takes everything pending; each product gets exactly its own changes and publishes at most once, after all of them |
| `Markets.OfConcat` | src/Market.cpp:80-85 | the changes of a product keep their order of iteration |
| `MarketRuns.EveryChangeIsAccounted` | src/Market.cpp:62-96 | over every interleaving of arrivals, turns, subscriptions and removals, each change is pending, applied in one turn, or dropped in one turn at which its product did not exist |
| `Subscriptions.ThereIff` | src/Market.cpp:108-112 | after any run a product is there exactly when it was subscribed and not removed after that, or was there before and never removed |
| `Subscriptions.SubscriptionStarts` | src/Market.cpp:62-112 | wherever in a run a missing product is subscribed, and not removed later, it starts with an empty book, takes the batches of its changes from then on, pending ones included, and publishes each |
| `Subscriptions.OthersComeAndGo` | src/Market.cpp:86-92 | subscriptions and removals of other products make no difference to a product, in any run |
| `MarketRuns.ProductTakesBatches` | src/Market.cpp:62-96 | over every interleaving, a product takes its batches in order, each permuted somehow, and the rest is pending; batches and rest are the changes that arrived, none lost, repeated or moved |
| `MarketTurns.SplitRunsAreRuns` | src/Market.cpp:62-96 | a turn takes the changes and applies them in two critical sections: every run of these ends where an atomic run ends in which the same changes arrive in the same order and the same products come and go in the same order |
| `MarketRuns.OneViewPerBatch` | include/product/Product.hpp:43-45 | exactly one publication per batch |
| `MarketRuns.ViewAt` | include/product/Product.hpp:43-45 | each publication is the book after all changes up to the end of its batch, never one inside it |
| `EndToEnd.PublishedBooksAreTrue` | src/Market.cpp:62-96 | feed, translation, market and vectors composed: the book published for a batch is the exchange's true book at the entry whose change ends the batch, each publication is of a later entry, and of a book that is no older when the feed run never goes back, if each batch is taken in an order that keeps |
| `EndToEnd.OrderNeverMatters` | src/Market.cpp:62-96 | whatever the multimap does, that is so if in no batch two changes are such that the later may not come first |
| `EndToEnd.CaughtUp` | src/Market.cpp:62-96 | when everything has been taken, the product's book is the exchange's at the last entry |
| `CrossedBatch.FalseBookIsPublished` | src/Market.cpp:62-96 | a faithful run, fully applied, in which the multimap puts a message in front of the full order book before it, and the book published then, which is the exchange's at no entry, stays |

## Left out

- JSON parsing, number parsing and protobuf encoding: messages are decoded records; fields that a kind does not use are arbitrary, and messages that lack a needed field are not part of this model.
- Feed messages that themselves carry bids and asks, and REST replies that carry a type or a merge list.
- WebSocket, REST and ZMQ transports: a reply is a parameter of the fetch step, a publication an entry of a log.
- Rounding of doubles: prices and sizes are exact reals.
- Trades, trade publishers, metrics, time stamps and console output: field copying and counters.
- Clients of a product, and `Market::unsubscribe` with its client bookkeeping; the removal of a product is only a step of the market's runs.
- Lock order between the market and the feed client: no claim is made. The mutexes of the market are modelled by steps that are atomic, a turn of the handler by two.
- Destructors, shutdown and the timeouts of condition variables.
- Exceptions in the request thread, which end the program.
- EndToEnd.PublishedBooksAreTrue: assumes that each batch is taken in an order that keeps; CrossedBatch shows a false book otherwise. For a batch with a full order book that is exact.
- Reordering.ReorderingIsHarmless: goes one way for batches of more than two events without a full order book, since later events of a batch can hide a pair that may not trade places; for two changes, and for batches with a full order book, the condition is exact.
- Schedule.ScheduleIndependence: is about contiguous feeds; with repeated numbers the result depends on whether a message arrives before or after the order book, as Strays shows.
- Markets.Market.OnProductChange: leaves the other pending changes where they are; that a rehash may move whole groups is covered by the runs of the market, where the pending changes take any order.
