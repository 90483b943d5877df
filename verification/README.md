# Verified model of the concurrency, scheduling and order-book code

This project models the parts of the trading library that hold state under concurrency or carry arithmetic and
coding rules, and proves what they guarantee.  `dafny verify dfyconfig.toml` checks all of it.

| files | what they model |
|---|---|
| `WorkerPool`, `WorkerPoolProofs`, `BackgroundWorker` | the tagged thread pool: critical sections of its threads as actions of a state machine, and the object whose methods are these sections |
| `Quotes`, `OrderBook`, `ActiveQuoteTable`, `MarketData`, `MessageLevels`, `Pipeline`, `PipelineProofs`, `PipelineResults`, `PipelineFeeds`, `RegisteredFeeds`, `FeedExample`, `ConnectionMD` | from price levels to the sorted book, with several connections interleaved on one book; which price feeds this can carry |
| `TimerModel`, `TimerResults`, `Timer` | the multi-threaded timer |
| `RateGraph`, `RateManager`, `RateExample` | direct rates as a graph, the memoised path search under an ignore list, and two histories with paths longer than needed |
| `RingBuffer`, `OneToOneQueue` | the queue between one producer and one consumer, as interleaved atomic steps |
| `Averages`, `Aggregates`, `QuoteGroups` | truncating averages, and the two kinds of quote groups with running and with cached aggregates |
| `Levels`, `BookViews` | grouping a side by price, and cutting it into chunks of a minimum volume |
| `Symbols`, `CurrencyRegistry`, `RegistryExample` | currency symbols, parsing, registration with roll-back, cached pair names |
| `Base64` | base64 of RFC 4648 on bytes |
| `Utilization`, `BgwMonitorTask` | accounting of busy time and queue sizes |
| `ObjectPool` | the free-list allocator |
| `Doubles`, `Durations` | durations as text, read through floating-point numbers of 53 significant bits |

State that the code updates in place is a class here, and every method's contract gives its whole new state, mostly
as one action of a state machine or as a function of the old state.  What holds over all runs is proved about these
actions and functions.  The invariant `Valid()` of the pool, the timer and the queue says that the object's state is
reached by actions from the initial one, so every result about reachable states holds of the objects.

Conventions.  Integers are unbounded, and division truncates toward zero where the code divides integers.
Floating-point values are reals, except where a text is read as a double.  The clock is an input of each operation: an
arbitrary reading, not even assumed to be non-decreasing unless a contract says so.  Choices of the system (which
sleeping thread wakes up, how threads interleave) are inputs too.  Callbacks are given by what they answer.

## Where the code departs from what one would expect

* `GetBestQuote` takes an acceptance predicate and never calls it.  This makes a difference exactly if the first quote with a positive price is not accepted (`OrderBooks.PredicateMattersExactlyWhen`).
* The path search does not find shortest paths as its documentation says (`lib/utils/include/Utils/CurrentRateManager.h:137`): the cache can hold a path that had to avoid a currency.  With nothing cached towards the quote currency, a path that is found is the shortest one wherever four currencies suffice; its length is 2 exactly if there is a direct rate, and 3 exactly if there is none and some currency has both legs (`CurrentRateManager.GetPath`, `CurrentRateManager.GetPathAfresh`).  Four is the most that can be promised: a new manager may answer with six currencies where five suffice (`RateExample.LongerFromTheStart`).  Later questions can go wrong earlier, in whatever order neighbours are tried: after (1, 9), the pair (2, 9) gets five currencies where four suffice (`RateExample.LongerThanNeeded`).
* Two pairs can get the same generated quote ids.  Ids are made from the names by which pairs go, and these are remembered by the registry.  For any naming, no run ever misses a reference exactly if sources of levels that share an id share pair and side (`PipelineFeeds.FaultlessExactlyWhen`); with price texts without `_`, as numerals are, exactly if different pairs with the same price on the same side go by different names (`PipelineFeeds.PlainFeedFaultlessExactlyWhen`).  This fails for pairs of one valid registry: after two refused registrations the pairs A/B and A/C both go by the name A/AA (`FeedExample.NumeralFeedWithFault` runs this history).  It holds of registered pairs whose names are fresh, that is, for which no other name is remembered (`RegisteredFeeds.FreshFeedIsFaultless`, `RegisteredFeeds.FreshExactlyWhen`), in particular if no registration of their ids had failed (`RegisteredFeeds.NeverFailedIsFaultless`).  Under fresh names it is also enough, whatever the price texts, that no symbol contains `_` and no base symbol contains `/` (`PipelineFeeds.CleanFeedIsUnambiguous`); without either, `PipelineFeeds.FeedWithFault` is a feed that cannot be carried.
* A zero-size level of an inactive id ends the whole message (`src/ConnectionBaseMD.cpp:170`); the specification does the same.
* The running average can divide by zero if volumes are negative; `Aggregates.DividesByZeroExactlyWhen` says when.
* The calculation of a group's values starts the greatest price at 0 and the least at the first quote.  The least price is right; the greatest is one of the prices exactly if some price is not negative (`Aggregates.ExtremesAttainedExactlyWhen`).
* A failed registration of a currency leaves the name of the pair it conflicts with in the name cache.  If the id is used again with another symbol, the pair keeps the old name, which is not parsed back (`RegistryExample.StaleName` runs this history).  Without slashes in symbols a pair's name is parsed back exactly if no other name has been cached for the pair (`CurrencyRegistry.NameRoundTrip`).
* Durations are read through doubles.  A duration is read back from its text exactly if it has at most 53 significant bits, in particular up to 2^53 nanoseconds, about 104 days (`Durations.RoundTripExactlyWhen`, `Durations.RoundTrip`); 2^53 + 1 is read as 2^53 (`Durations.OddIsRoundedOnce`, `Doubles.FirstGap`).  That a machine can round as these results suppose is `Durations.RoundingMachineWorks`.
* Asking for the symbol of an unregistered currency value adds it to one of the two maps (`CurrencyRegistry.ToStringView`).
* The base64 alphabet is passed to a search that expects a terminated string; the model takes it as its 64 characters.

## Model

| member | source | states |
|---|---|---|
| WorkerPoolProofs.TagsNeverRunInParallel | lib/utils/include/Utils/BackgroundWorker.hpp:425-487 | in every reachable state two workers never run items of one tag, and the open sequences are exactly the tags being run |
| WorkerPoolProofs.TagsStartInOrder | lib/utils/include/Utils/BackgroundWorker.hpp:425-487 | items of one tag start in the order in which they were enqueued, each after the previous one has finished |
| WorkerPoolProofs.ItemsKeepTheirTags | lib/utils/include/Utils/BackgroundWorker.hpp:367-403 | over any run, the tags of the accepted items are those they were enqueued under, in that order |
| WorkerPoolProofs.ItemsConserved | lib/utils/include/Utils/BackgroundWorker.hpp:221-487 | every accepted item is, exactly once, queued, running, finished or cancelled; items are numbered as accepted |
| WorkerPoolProofs.PoolIsWorkConserving | lib/utils/include/Utils/BackgroundWorker.hpp:367-487 | if some worker sleeps and the pool is not being stopped, the items that could be started side by side are at most as many as the workers that are awake and about to scan; with nobody awake nothing in the queue can be started |
| WorkerPoolProofs.LastToLeaveEmptiesQueue | lib/utils/include/Utils/BackgroundWorker.hpp:235-276 | in a graceful stop a worker that leaves while nobody runs an item leaves an empty queue |
| WorkerPoolProofs.StepInv | lib/utils/include/Utils/BackgroundWorker.hpp:183-487 | every action of the pool keeps the whole invariant: tags, orders, conservation and wake-up counting |
| BackgroundWorkers.BackgroundWorker.StartThreads | lib/utils/include/Utils/BackgroundWorker.hpp:183-219 | starts exactly if the pool has no threads and both numbers are positive; that many workers, all awake, and the given size limit; nothing else changes |
| BackgroundWorkers.BackgroundWorker.EnqueueTagged | lib/utils/include/Utils/BackgroundWorker.hpp:367-403 | succeeds exactly if no shutdown was seen and the queue is below its limit; the item with its tag is then last in the queue, and one sleeping worker, if there is any, is notified; nothing else changes |
| BackgroundWorkers.BackgroundWorker.ClearQueue | lib/utils/include/Utils/BackgroundWorker.hpp:221-226 | the queue is empty, and what was in it is cancelled; nothing else changes |
| BackgroundWorkers.BackgroundWorker.Scan | lib/utils/include/Utils/BackgroundWorker.hpp:443-452 | finds the first item that has no tag or whose tag is not open |
| BackgroundWorkers.BackgroundWorker.WorkerTurn | lib/utils/include/Utils/BackgroundWorker.hpp:425-487 | one critical section of a worker: its sequence is closed; then the first item that is not blocked by an open sequence starts, or else there is none and the worker sleeps or leaves; nobody else is affected |
| WorkerPoolProofs.TurnMeans | lib/utils/include/Utils/BackgroundWorker.hpp:425-487 | the same of the action of the state machine |
| BackgroundWorkers.BackgroundWorker.RaiseShutdown | lib/utils/include/Utils/BackgroundWorker.hpp:235-241 | a stop raises the flag exactly if there are threads |
| BackgroundWorkers.BackgroundWorker.NotifyAll | lib/utils/include/Utils/BackgroundWorker.hpp:255 | exactly the sleeping workers are notified |
| BackgroundWorkers.BackgroundWorker.Joined | lib/utils/include/Utils/BackgroundWorker.hpp:257-275 | once all workers have left, no thread, no open sequence and no shutdown flag remain; what is still queued stays |
| PipelineResults.ReferencesAlwaysFound | src/ConnectionBaseMD.cpp:101-187 | over any interleaving of connections on one book, the book's missing-reference and not-found branches are never reached, before or at the next delivery |
| PipelineResults.BookHoldsEveryActiveId | src/ConnectionBaseMD.cpp:75-187 | after any run, each active id of an idle connection has exactly one quote in its side of the book, under the table's key, showing the last non-zero level; the table's ids are exactly the specification's |
| PipelineResults.BookHoldsNothingElse | src/ConnectionBaseMD.cpp:101-187 | with all connections idle, every quote in the book is the current one of some active id |
| PipelineResults.KeysAreUnique | lib/utils/src/Utils.cpp:464-479 | no two active ids, of one connection or of two, share a key |
| PipelineResults.BooksStaySorted | lib/orderbook/src/OrderBook.cpp:78-169 | the sides stay sorted over every run, whatever the messages |
| PipelineResults.HomeOfEntryId | src/ConnectionBaseMD.cpp:8-11 | pair and side can be read back from a generated id, if no symbol contains a separator and the pair goes by its fresh name |
| PipelineResults.ParsedEntriesWellFormed | src/ConnectionBaseMD.cpp:75-98 | so everything parsed from such pairs, under their fresh names, fulfils what the pipeline results require |
| PipelineResults.IdsCanCollide | src/ConnectionBaseMD.cpp:8-11 | without clean symbols, two valid pairs can get one id even under fresh names: a concrete input |
| PipelineResults.CollisionIsAFault | src/ConnectionBaseMD.cpp:101-187 | whenever two new entries share an id but not the side, a run with a missing reference exists |
| PipelineFeeds.FaultlessExactlyWhen | src/ConnectionBaseMD.cpp:75-187 | over all runs of any number of connections on messages of a price feed, under any naming of pairs and with prices read from their texts, no reference is ever missing exactly if levels of the feed that share a generated id share pair and side |
| PipelineFeeds.CleanFeedIsUnambiguous | src/ConnectionBaseMD.cpp:8-11 | so it is under fresh names if no symbol contains a separator, whatever the price texts |
| PipelineFeeds.PlainIdsEqualExactlyWhen | src/ConnectionBaseMD.cpp:8-11 | if price texts have no separator, ids are equal exactly if names, sides and price texts are |
| PipelineFeeds.PlainFeedExactlyWhen | src/ConnectionBaseMD.cpp:8-11 | so such a feed is unambiguous exactly if different pairs at one price of one side go by different names; if any pair may come with any price, exactly if different pairs go by different names |
| PipelineFeeds.PlainFeedFaultlessExactlyWhen | src/ConnectionBaseMD.cpp:75-187 | and this is exactly when no run on such a feed ever misses a reference |
| RegisteredFeeds.RegisteredFeedFaultlessExactlyWhen | src/ConnectionBaseMD.cpp:75-187 | the same for pairs of a registry under the names by which they go there, remembered ones included |
| RegisteredFeeds.AskName | lib/utils/src/CurrencyPair.cpp:469-493 | asking the registry for a name gives this name, and changes the name of no registered pair |
| RegisteredFeeds.FreshFeedIsFaultless | src/ConnectionBaseMD.cpp:75-187 | registered pairs that go by their fresh names, with price texts without separator, never make a book miss a reference, over all runs and whatever symbols the registry has let in |
| RegisteredFeeds.FreshExactlyWhen | lib/utils/src/CurrencyPair.cpp:469-493 | a pair goes by its fresh name exactly if no other name is remembered for it; in particular if no registration of its ids had failed |
| RegisteredFeeds.NeverFailedIsFaultless | src/ConnectionBaseMD.cpp:75-187 | so pairs of ids whose registration never failed never make a book miss a reference |
| FeedExample.NumeralFeedWithFault | lib/utils/src/CurrencyPair.cpp:143-196 | a history of calls on a new registry after which it is valid, but A/B and A/C go by the one name A/AA, and some run on bids for both at the price 5 misses a reference |
| PipelineFeeds.FeedWithFault | src/ConnectionBaseMD.cpp:8-11 | a concrete feed of two valid pairs with different fresh names, and a separator in a price text, that some run cannot carry |
| PipelineProofs.StepInv | src/ConnectionBaseMD.cpp:101-187 | every step of every connection keeps the pipeline invariant |
| ConnectionsMD.PublishMeetsSpecification | src/ConnectionBaseMD.cpp:75-187 | publishing a well-formed message from any reached state leaves every active id, and only those, with exactly one quote, as the level-by-level specification says, including the stop at a zero level of an inactive id |
| ConnectionsMD.FeedMeetsSpecification | src/ConnectionBaseMD.cpp:75-187 | so it is with every message parsed from a price feed whose ids stand for one side of one pair, under any naming |
| ConnectionsMD.LevelsShowInBook | src/ConnectionBaseMD.cpp:75-187 | end to end, from the levels of a message to the book: of the levels before the one that ends the message, if any, the last one of each id, if its size is not zero, shows in the book exactly once, with its price and size rounded to units; a zero size leaves nothing; all other ids show what they did; one quote is counted per level that counts |
| ConnectionsMD.LevelsCounted | src/ConnectionBaseMD.cpp:101-187 | the counter grows by the number of levels before the first that is empty while its id is inactive |
| MessageLevels.LevelsLeave | src/ConnectionBaseMD.cpp:75-187 | the specification says of a parsed message what its levels say: the last level of each id shows or ends it |
| ConnectionsMD.PublishAllIsARun | src/ConnectionBaseMD.cpp:101-187 | the publishing loop without interference is a run of the pipeline |
| ConnectionsMD.ConnectionBaseMD.ParseQuote | src/ConnectionBaseMD.cpp:75-98 | one entry per level in order: id and reference from the name by which the pair goes, side letter and price text; price, size, pair and side of the level; a delete exactly for size zero, else new |
| ConnectionsMD.ConnectionBaseMD.RegisterEntry | src/ConnectionBaseMD.cpp:112-177 | case by case: skipped exactly if pair or side are missing and nothing is referenced; the message ends at a delete of nothing; else published with key, reference key, corrected type, rounded price and volume, and the table without the old entry and with the new one |
| MarketData.RegisterHandles | src/ConnectionBaseMD.cpp:112-177 | the same of the specification function |
| ConnectionsMD.ConnectionBaseMD.PublishQuotes | src/ConnectionBaseMD.cpp:101-187 | table, books, last key and counter are those of the publishing specification; a null message changes nothing |
| ConnectionsMD.KeySource.NewInt64Key | lib/utils/src/Utils.cpp:464-479 | every key is greater than all before it and not before the clock |
| MarketData.NextKey | lib/utils/src/Utils.cpp:464-479 | a new key is always greater than the last |
| Quotes.RoundHalfAway | lib/utils/include/Utils/CurrencyPair.h:332-344 | prices and quantities become the nearest integer after scaling, halves away from zero |
| ActiveQuoteTables.ActiveQuoteTable.FindQuoteInfo | src/ActiveQuoteTable.cpp:31-45 | finds what is stored; the empty id is never found |
| ActiveQuoteTables.ActiveQuoteTable.ReplaceQuoteInfoAt | src/ActiveQuoteTable.cpp:48-67 | for every iterator: what was stored there is returned, and an empty result at the end; the node moves to its new id and is lost if that id is taken; an iterator at an empty id is handled too |
| ActiveQuoteTables.ActiveQuoteTable.ReplaceQuoteInfo | include/ActiveQuoteTable.h:47-55 | returns what the old id held; the new entry starts with its own key as original key |
| ActiveQuoteTables.ActiveQuoteTable.ReplaceQuoteInfoHashed | include/ActiveQuoteTable.h:72-84 | the original key is kept exactly if not forced, the hash is the same and the id does not change |
| ActiveQuoteTables.ActiveQuoteTable.RemoveQuoteInfo | src/ActiveQuoteTable.cpp:70-85 | returns and removes the entry of the id, if any |
| ActiveQuoteTables.ActiveQuoteTable.RemoveOldQuoteInfos | include/ActiveQuoteTable.h:98-115 | removes exactly the entries with keys below the limit and hands each to the action |
| ActiveQuoteTables.ReplacedLookup | src/ActiveQuoteTable.cpp:48-67 | what any id finds after a replacement, in all cases of old, new and missing ids |
| ActiveQuoteTables.RemoveUndoesReplace | src/ActiveQuoteTable.cpp:48-85 | removing the new id after a replacement leaves what removing the old id would have left |
| OrderBooks.UpdateKeepsSorted | lib/orderbook/src/OrderBook.cpp:106-151 | adding a quote keeps the side sorted by better price, then larger volume |
| OrderBooks.SortedMeans | lib/orderbook/src/OrderBook.cpp:131-144 | sorted is: bids fall, asks rise, and at one price volumes do not grow |
| OrderBooks.UpdateMeans | lib/orderbook/src/OrderBook.cpp:106-151 | an update takes out the first quote with the referenced key, if the type is delete or update and the key positive, keeps the rest in order, and puts the new quote, unless it is a delete, in front of all at its price whose volume is not greater |
| OrderBooks.DiagnoseMeans | lib/orderbook/src/OrderBook.cpp:106-127 | the error branches: the reference is missing exactly for an empty side or a key that is not positive, and not found exactly if no quote has it |
| OrderBooks.UpdateContents | lib/orderbook/src/OrderBook.cpp:106-151 | an update removes exactly the referenced quote, if it is there, and adds exactly the new one unless it is a delete; so it is for quotes of all types |
| OrderBooks.UpdateElsewhere | lib/orderbook/src/OrderBook.cpp:78-169 | all other pairs and sides stay as they are |
| OrderBooks.FirstPositiveIsBest | lib/orderbook/include/OrderBook/OrderBook.h:158-219 | on a sorted side the first accepted quote with a positive price has the best price of all such |
| OrderBooks.BestPriceMeaning | lib/orderbook/include/OrderBook/OrderBook.h:138-182 | the best price is the maximum positive bid or minimum positive ask, and 0 exactly if there is none |
| OrderBooks.MidBetweenBestPrices | lib/orderbook/include/OrderBook/OrderBook.h:186-191 | the mid price is half the sum of the best prices, rounded down, and lies between them in an uncrossed book; it is 0 if a side has no price |
| OrderBooks.OrderBook.ChangeSide | lib/orderbook/src/OrderBook.cpp:95-151 | the loops that look up the reference, erase and insert in place, with the diagnosis of a bad reference; the result is what UpdateMeans says |
| OrderBooks.OrderBook.ChangeBook | lib/orderbook/src/OrderBook.cpp:78-151 | the vectors of a new pair are created; one side of one pair changes so, and no other |
| OrderBooks.OrderBook.AddQuote | lib/orderbook/src/OrderBook.cpp:78-169 | the new books, last quote, diagnosis, and whether the mid price has moved; no other side or pair changes |
| OrderBooks.OrderBook.GetBestQuotes | lib/orderbook/include/OrderBook/OrderBook.h:193-219 | the first accepted quotes with positive prices of both sides |
| OrderBooks.OrderBook.GetBestQuote | lib/orderbook/include/OrderBook/OrderBook.h:158-182 | the same for one side with the always-true predicate, whatever predicate is given: the code ignores it |
| OrderBooks.PredicateMattersExactlyWhen | lib/orderbook/include/OrderBook/OrderBook.h:158-219 | the first positive quote is the first accepted one exactly if it is accepted or there is none: where the ignored predicate would make a difference |
| OrderBooks.OrderBook.GetMidPrice | lib/orderbook/include/OrderBook/OrderBook.h:186-191 | for positive best prices b and a the mid price m fulfils 2m <= b + a <= 2m + 1; otherwise it is 0 |
| OrderBooks.OrderBook.Clear | lib/orderbook/src/OrderBook.cpp:243-274 | no books and no last quote remain |
| TimerResults.TaskInOnePlace | lib/utils/src/Timer.cpp:85-169 | in every reachable state a task waits once, or is run by one thread; keys equal due times; uncancelled ids in execution are held by a thread |
| TimerResults.LifeOfATask | lib/utils/src/Timer.cpp:85-440 | only scheduling brings a task to life; only a cancellation, or the end of a run without interval, ends it: no re-insertion ever loses a task |
| TimerResults.CancelIsFinal | lib/utils/src/Timer.cpp:252-279 | a task that is cancelled, even while it runs, never starts again |
| TimerResults.DeadNeverStarts | lib/utils/src/Timer.cpp:100-169 | nor does a task that is done, over any run |
| TimerResults.TasksStartWhenDue | lib/utils/src/Timer.cpp:100-124 | in every reachable state, no task has ever been started before its time |
| TimerResults.NeverBeforeFirstTime | lib/utils/src/Timer.cpp:205-244 | over any run that does not disturb it, a task is not due, and does not start, before the first time it was scheduled for |
| TimerResults.PeriodicTasksKeepTheirDistance | lib/utils/src/Timer.cpp:148-157 | from any reachable state in which a task waits or runs, due times of its starts grow by at least its interval over any run that does not disturb it |
| TimerModel.MoveKeeps | lib/utils/src/Timer.cpp:340-384 | taking a node out and putting it back at an unused time keeps all ids and their number |
| TimerModel.StepInv | lib/utils/src/Timer.cpp:85-440 | every action keeps the invariant |
| TimerModel.Unused | lib/utils/src/Timer.cpp:442-449 | the least free time not below the proposal |
| Timers.Timer.GetUnusedScheduleTime | lib/utils/src/Timer.cpp:442-449 | the search terminates with that time |
| Timers.Timer.Start | lib/utils/src/Timer.cpp:61-75 | starts only with no threads, a name of 1 to 12 characters and 1 to 99 threads |
| Timers.Timer.ScheduleAt | lib/utils/src/Timer.cpp:205-244 | the task of the given name and interval waits at the least free time not before its first time and now, and nothing else changes; a first time that is not positive is drawn between the clock and one interval later; insertion never fails; refused while not running |
| Timers.Timer.CancelTask | lib/utils/src/Timer.cpp:252-279 | succeeds exactly for tasks that wait or run uncancelled; a waiting one goes, a running one will not be put back, and nothing else changes |
| Timers.Timer.CancelAllTasks | lib/utils/src/Timer.cpp:281-295 | nothing waits and nothing running will be put back |
| Timers.Timer.GetScheduledTime | lib/utils/src/Timer.cpp:297-338 | the positive due time of a waiting task, and nothing else; exactly the running uncancelled tasks are reported as executing |
| Timers.Timer.RescheduleTask | lib/utils/src/Timer.cpp:340-384 | moves the node of the id to the least free time not before the given time and now, unchanged but for its due time; fails exactly if no such task waits |
| Timers.Timer.PostponeNamed | lib/utils/src/Timer.cpp:386-432 | moves the first waiting task of the name to the least free time not before now plus the delay, and returns its id; None exactly if there is none to move or the timer or name will not do |
| Timers.Timer.TakeDueTask | lib/utils/src/Timer.cpp:100-124 | unless the timer shuts down, takes a task exactly if one is due: one whose time has come, and no waiting task has an earlier one; marks it as being executed and records its start |
| Timers.Timer.FinishTask | lib/utils/src/Timer.cpp:147-157 | puts the task back at the least free time not before the next due time and now, unless it was cancelled or has no interval |
| Timers.Timer.Joined | lib/utils/src/Timer.cpp:175-203 | when all workers have left, no id is marked as being executed |
| RateGraph.CachedAvoidsUncached | lib/utils/src/CurrentRateManager.cpp:254-305 | a cached path avoids every currency from which no path to the same target is cached |
| RateGraph.CacheGrows | lib/utils/src/CurrentRateManager.cpp:287-305 | prefixing a cached path with a neighbour keeps the cache sound: simple paths of direct rates whose tails are the cached paths of their ends |
| RateGraph.CacheSurvivesRates | lib/utils/src/CurrentRateManager.cpp:88-110 | entering a rate keeps the cache sound |
| RateGraph.CachedReachable | lib/utils/src/CurrentRateManager.cpp:136-180 | only reachable pairs have cached paths |
| RateGraph.ReachableMeansPath | lib/utils/src/CurrentRateManager.cpp:254-305 | a currency can be reached exactly if a simple path leads to it |
| RateGraph.PathUnfolds | lib/utils/src/CurrentRateManager.cpp:265-299 | a simple path without direct rate continues from some usable neighbour |
| RateGraph.FewerLeft | lib/utils/src/CurrentRateManager.cpp:254-305 | each level of the recursion leaves fewer currencies outside the ignore list |
| RateGraph.AskRateComesBack | lib/utils/src/CurrentRateManager.cpp:112-193 | setting an ask rate and asking for it gives it back, over the reals |
| RateGraph.ProductSplits | lib/utils/src/CurrentRateManager.cpp:154-166 | the value of a walk over some currency is that of its part up to there times that of its part from there |
| RateGraph.PathValue | lib/utils/src/CurrentRateManager.cpp:154-166 | the value of a path is its one rate, the product of its two rates, or its first rate times the value of the rest |
| RateGraph.BidValueMeans | lib/utils/src/CurrentRateManager.cpp:136-180 | the bid rate case by case: invalid pair, same currency, direct rate, cached path |
| RateManagers.CurrentRateManager.SetBidRate | lib/utils/src/CurrentRateManager.cpp:88-110 | stores positive rates of valid pairs only; paths stay cached; currencies are those of the rates |
| RateManagers.CurrentRateManager.SetAskRate | lib/utils/src/CurrentRateManager.cpp:112-122 | stores for the opposite pair a rate whose product with the given one is 1 |
| RateManagers.CurrentRateManager.AddPath | lib/utils/src/CurrentRateManager.cpp:319-324 | never replaces a cached path |
| RateManagers.CurrentRateManager.GetPathAvoiding | lib/utils/src/CurrentRateManager.cpp:254-305 | terminates; finds a path exactly if one avoids the ignore list, though the cache holds paths found under other ignore lists; a path it had to search for is one currency longer than the least of the cached paths of the neighbours that lead on, each of which has got one, over the first neighbour of several with equally short paths, and so is every path it cached on the way; the least neighbour is searched first; caches that are shortest wherever three currencies suffice stay so |
| RateManagers.CurrentRateManager.BestSubPath | lib/utils/src/CurrentRateManager.cpp:273-297 | the loop over the neighbours, in the order of the rates: nothing is found exactly if no neighbour leads on; otherwise every neighbour that does is cached, and the first of the shortest of their paths is returned |
| RateManagers.CurrentRateManager.GetPath | lib/utils/src/CurrentRateManager.cpp:243-252 | a path is found exactly if the quote currency can be reached; if what is cached towards that currency is shortest wherever three currencies suffice, this stays so, and a path not cached before is the shortest one wherever four suffice |
| RateManagers.CurrentRateManager.GetPathAfresh | lib/utils/src/CurrentRateManager.cpp:243-305 | with nothing cached towards the quote currency: 2 currencies exactly if there is a direct rate, 3 exactly if there is none and some currency has both legs, at most 4 exactly if there is such a path |
| RateGraph.LengthsMean | lib/utils/src/CurrentRateManager.cpp:254-305 | what lengths 2, 3 and up to 4 of a path that is shortest up to four currencies say about the rates |
| RateExample.LongerThanNeeded | lib/utils/src/CurrentRateManager.cpp:243-305 | a history of questions, (1, 9), (2, 9) and (8, 9), of which the last two get longer paths than there are, whatever the order of neighbours |
| RateExample.LongerFromTheStart | lib/utils/src/CurrentRateManager.cpp:265-299 | a new manager asked once, with six or more currencies in the answer where five suffice: the bound of four is the best |
| RateManagers.CurrentRateManager.RateAlong | lib/utils/src/CurrentRateManager.cpp:154-166 | the product of the direct rates along the path |
| RateManagers.CurrentRateManager.GetBidRate | lib/utils/src/CurrentRateManager.cpp:136-180 | 0 for an invalid pair, 1 for one currency, the direct rate if there is one, else the value of the cached path: over one currency in between, the product of two rates; positive exactly if the quote currency can be reached from the base |
| RateManagers.CurrentRateManager.GetAskRate | lib/utils/src/CurrentRateManager.cpp:182-193 | its product with the opposite bid rate is 1; 0 without one |
| RingBuffer.FirstInFirstOut | lib/utils/include/Utils/OneToOneQueue.hpp:33-71 | over all interleavings the values handed out are a prefix of those accepted, with at most the maximum in between; a drained queue has handed out all |
| RingBuffer.NeverSameSlot | lib/utils/include/Utils/OneToOneQueue.hpp:33-71 | the two threads are never about to touch one slot |
| RingBuffer.RefusedExactlyWhenFull | lib/utils/include/Utils/OneToOneQueue.hpp:33-48 | an enqueue is refused exactly if the ring holds the maximum when the head index is read |
| RingBuffer.EmptyExactlyWhenDrained | lib/utils/include/Utils/OneToOneQueue.hpp:57-66 | a dequeue finds nothing exactly if all accepted values have been handed out |
| RingBuffer.TakesTheOldest | lib/utils/include/Utils/OneToOneQueue.hpp:57-71 | the value taken is the oldest not yet handed out |
| RingBuffer.NothingLeftBehind | lib/utils/include/Utils/OneToOneQueue.hpp:66-67 | a drained queue keeps no value: every slot is reset |
| RingBuffer.StepInv | lib/utils/include/Utils/OneToOneQueue.hpp:33-71 | every atomic step of either thread keeps the invariant |
| OneToOneQueues.OneToOneQueue.Enqueue | lib/utils/include/Utils/OneToOneQueue.hpp:33-49 | accepts exactly below the maximum, wherever the consumer stands inside a dequeue |
| OneToOneQueues.OneToOneQueue.Dequeue | lib/utils/include/Utils/OneToOneQueue.hpp:57-71 | hands out the oldest value exactly if there is one, wherever the producer stands inside an enqueue |
| OneToOneQueues.OneToOneQueue.QueueSize | lib/utils/include/Utils/OneToOneQueue.hpp:96 | the number of accepted values whose slot has not been given up yet, at any positions of the two threads inside their calls; between calls, of those not handed out |
| RingBuffer.SizeReadInSteps | lib/utils/include/Utils/OneToOneQueue.hpp:96 | with any steps between the two reads, in either order: what was accepted by the one moment less what had left the ring by the other, modulo the number of slots |
| RingBuffer.OwnThreadSeesSize | lib/utils/include/Utils/OneToOneQueue.hpp:33-96 | so either of the two threads gets the size of the moment at which it reads the index of the other |
| Averages.AverageBetween | lib/orderbook/src/Quote.cpp:402-442 | the partial average lies between the least and the greatest price used |
| Averages.AverageDrift | lib/orderbook/src/Quote.cpp:418-422 | truncation puts it off the exact weighted average by at most the number of quotes used less one (times the volume) |
| Averages.AverageNearExact | lib/orderbook/src/Quote.cpp:418-422 | the same for the quotient |
| Averages.AverageMoves | lib/orderbook/src/Quote.cpp:418-422 | each fill moves the average by its share of the volume so far, truncated toward zero; the first sets it |
| Averages.PartialAverage | lib/orderbook/src/Quote.cpp:402-442 | together: between the prices on offer, off the exact average by at most the number of quotes used less one, of a positive volume not above the request |
| Averages.FillsFromQuotes | lib/orderbook/src/Quote.cpp:409-432 | what is used comes from unused quotes whose minimum quantity the request reaches, and never exceeds the request |
| Averages.FillsAreGreedy | lib/orderbook/src/Quote.cpp:409-432 | the fills are what quotes taken in order contribute: each the lesser of its volume and what remains, from the next quote that is unused, has volume and does not want to sell more than remains |
| Averages.FillsCoverRequest | lib/orderbook/src/Quote.cpp:409-432 | for any minimum quantities: the request is covered, or else all that is on offer to what remains of it; a quote is passed over only if it wants to sell more than remains |
| Averages.FillsCoverWhatIsOffered | lib/orderbook/src/Quote.cpp:409-432 | so without minimum quantities the request is covered exactly as far as volume is on offer |
| QuoteGroups.CachedGroup.PartialAvgPrice | lib/orderbook/src/Quote.cpp:402-442 | the loop computes that average and the number of quotes used |
| Aggregates.RunningAverageIsNear | lib/orderbook/include/OrderBook/QuoteGroup.h:278-314 | kept up quote by quote, with volumes not negative: no division by zero, average between least and greatest price, and off the exact one by at most the number of traded quotes less one |
| Aggregates.RunningExtremesAttained | lib/orderbook/include/OrderBook/QuoteGroup.h:278-314 | for positive volumes, the least and the greatest price are prices of unused quotes, and the total is 0 exactly if there are none |
| Aggregates.TotalsAreExact | lib/orderbook/include/OrderBook/QuoteGroup.h:278-314 | total volume is the exact sum over unused quotes; greatest volume and minimum quantity bound all of them and are those of some, or 0 |
| Aggregates.AdjustMeans | lib/orderbook/include/OrderBook/QuoteGroup.h:278-314 | what one quote does to each of the aggregates, without naming the calculation |
| Aggregates.DividesByZeroExactlyWhen | lib/orderbook/include/OrderBook/QuoteGroup.h:299-307 | a further quote divides by zero exactly if it is unused, cancels a total that is not zero, and is not at the one price of all before |
| Aggregates.NegativeVolumeDividesByZero | lib/orderbook/include/OrderBook/QuoteGroup.h:299-307 | a concrete history that does |
| QuoteGroups.RunningGroup.AdjustAggregateValues | lib/orderbook/include/OrderBook/QuoteGroup.h:278-314 | one quote changes each of the aggregates as AdjustMeans says; used quotes do not count |
| QuoteGroups.RunningGroup.AddQuote | lib/orderbook/include/OrderBook/QuoteGroup.h:49-56 | if no flag has flipped, adding one by one is the same as recalculating |
| QuoteGroups.RunningGroup.RecalcAggregateValues | lib/orderbook/include/OrderBook/QuoteGroup.h:231-240 | the aggregates of all quotes with their present flags |
| QuoteGroups.RunningGroup.AddQuotes | lib/orderbook/include/OrderBook/QuoteGroup.h:66-77 | the appended group is recalculated as a whole |
| Aggregates.CalculatedAverage | lib/orderbook/src/Quote.cpp:313-347 | calculated afresh, with volumes not negative: least price <= average <= greatest price, and the truncated exact average whenever there is volume |
| Aggregates.ExtremesAttainedExactlyWhen | lib/orderbook/src/Quote.cpp:313-328 | for positive volumes, the least price bounds all and is one of them; the greatest bounds all, and is one of them exactly if some price is not negative |
| Aggregates.CalculatedTotals | lib/orderbook/src/Quote.cpp:313-328 | total volume is the sum, whatever the signs; greatest volume and minimum quantity bound all and are those of some quote, or 0 |
| Aggregates.GatherBounds | lib/orderbook/src/Quote.cpp:313-328 | the greatest price and volume bound all, and the sum of prices times volumes lies between the extreme prices times the total |
| QuoteGroups.CalculateAggregateValues | lib/orderbook/src/Quote.cpp:313-347 | both passes over the vector compute the specified values of all, or of the unused, quotes |
| QuoteGroups.Quote.SetUsed | lib/orderbook/src/Quote.cpp:21-30 | sets the flag, and succeeds exactly if it was not set |
| QuoteGroups.CachedGroup.InvalidateAggregateValues | lib/orderbook/src/Quote.cpp:368-375 | drops the cached values of the unused quotes, and of all unless only flags changed |
| QuoteGroups.CachedGroup.AddQuote | lib/orderbook/src/Quote.cpp:277-284 | both caches are valid afterwards |
| QuoteGroups.CachedGroup.AddQuotes | lib/orderbook/src/Quote.cpp:356-366 | the other group is appended in order, both caches are valid |
| QuoteGroups.CachedGroup.RemoveQuote | lib/orderbook/src/Quote.cpp:293-310 | removes the first occurrence of the object; without one nothing changes; valid caches stay valid |
| QuoteGroups.CachedGroup.GetAllValues | lib/orderbook/include/OrderBook/Quote.h:407-419 | the values of all quotes always equal a fresh calculation |
| QuoteGroups.CachedGroup.GetUnusedValues | lib/orderbook/include/OrderBook/Quote.h:407-419 | those of the unused quotes do if the cache was valid; a cached value is returned as it is |
| QuoteGroups.CachedGroup.UseQuote | lib/orderbook/src/Quote.cpp:21-30 | setting a flag with the invalidation for changed flags: the next read is up to date |
| QuoteGroups.StaleAfterSetUsed | lib/orderbook/src/Quote.cpp:21-30 | without the invalidation it is not: a concrete history |
| Levels.GroupsKeepEverything | lib/orderbook/src/OrderBook.cpp:276-303 | the levels put together are the accepted quotes in order |
| Levels.FilterKeeps | lib/orderbook/src/OrderBook.cpp:276-303 | every accepted quote stays where it is among the others, once, and a refused one goes |
| Levels.GroupsAreLevels | lib/orderbook/src/OrderBook.cpp:195-216 | each level is non-empty and of one price; on a sorted side the prices get strictly worse |
| Levels.DeliveredIsUnique | lib/orderbook/src/OrderBook.cpp:195-216 | what a callback gets to see is determined by the levels and its answers |
| BookViews.GetNextLevel | lib/orderbook/src/OrderBook.cpp:276-303 | advances past empty prices to the next level, null only at the end |
| BookViews.IterateQuoteGroups | lib/orderbook/src/OrderBook.cpp:195-216 | the callback sees the levels in order, up to and including the first after which it answers stop |
| BookViews.GetLevels | lib/orderbook/src/OrderBook.cpp:171-180 | all levels for 0, else the first n of all levels, or all if there are fewer |
| Levels.CoverIsShortest | lib/orderbook/src/BookView.cpp:52-68 | the aggregate level is the shortest front part of the unused accepted quotes that covers the volume, or all of them |
| BookViews.AggregateLevel | lib/orderbook/src/BookView.cpp:52-68 | the nested callbacks compute it, although the iteration stops early |
| Levels.ChunksAreMinimal | lib/orderbook/src/BookView.cpp:70-99 | finished chunks reach the minimum and not before their last quote; the unfinished one does not reach it |
| Levels.ChunksConsume | lib/orderbook/src/BookView.cpp:70-99 | the chunks put together are the unused accepted quotes, or a front part if the client stopped |
| Levels.ChunksAnswered | lib/orderbook/src/BookView.cpp:86-90 | the client gets all chunks up to the first after which it answers stop |
| Levels.ChunksConcatenate | lib/orderbook/src/BookView.cpp:70-99 | the same for the result with the rest as its last chunk |
| BookViews.AggregateLevels | lib/orderbook/src/BookView.cpp:70-99 | the nested callbacks compute these chunks |
| Symbols.NameParsesBackExactlyWhen | lib/utils/src/CurrencyPair.cpp:469-493 | a name is parsed back to its pair exactly if the base symbol has no slash and the name is not six characters long with two known symbols as halves |
| Symbols.NameParsesBack | lib/utils/src/CurrencyPair.cpp:720-791 | so it always is if no symbol has a slash |
| Symbols.OnlyNameParsesBack | lib/utils/src/CurrencyPair.cpp:720-791 | and without slashes in symbols no other text with a slash is parsed as the pair: exactly its name is |
| Symbols.ParsedIsRegistered | lib/utils/src/CurrencyPair.cpp:720-791 | a pair understood as valid consists of registered currencies |
| Symbols.SixCharactersSplit | lib/utils/src/CurrencyPair.cpp:729-738 | six characters that are two known symbols of three are these two |
| Symbols.DelimiterSplits | lib/utils/src/CurrencyPair.cpp:740-751 | other texts are taken apart at the first slash, or else at the first dash |
| Symbols.SymbolsTriedInOrder | lib/utils/src/CurrencyPair.cpp:753-790 | a text without delimiter is what the first symbol makes of it, in alphabetical order, that makes anything: its beginning or its end |
| Symbols.StrToValMeans | lib/utils/src/CurrencyPair.cpp:120-132 | the value of a text is that of the symbol; without one, none for the empty text and else invalid |
| Symbols.LessMeans | lib/utils/include/Utils/CurrencyPair.h:194 | the order of the symbols is the alphabetical one |
| Symbols.ThreeCharactersNeverConflict | lib/utils/src/CurrencyPair.cpp:172-196 | symbols of three characters are always understood when put together |
| Symbols.SlashConflicts | lib/utils/src/CurrencyPair.cpp:172-196 | a symbol with a slash conflicts with another currency exactly unless both have three characters |
| Symbols.NamesDiffer | lib/utils/src/CurrencyPair.cpp:172-196 | in a registry without conflicts different pairs have different names, with slashes in symbols or without |
| Symbols.InsertOrdered | lib/utils/src/CurrencyPair.cpp:158-159 | insertion keeps the alphabetical order in which the symbols are tried |
| Symbols.EraseInserted | lib/utils/src/CurrencyPair.cpp:162-167 | the roll-back gives the map back as it was |
| CurrencyRegistries.CurrencyRegistry.constructor | lib/utils/src/CurrencyPair.cpp:25-108 | a table of distinct three-character symbols: inverse maps without conflicts |
| CurrencyRegistries.CurrencyRegistry.RegisterCurrency | lib/utils/src/CurrencyPair.cpp:143-167 | keeps the two maps inverse and every concatenation of two symbols understood; registers exactly if id and symbol are new and no conflict arises; otherwise both maps are as before; no registered pair changes its name |
| CurrencyRegistries.CurrencyRegistry.CheckRegisteredCurrencies | lib/utils/src/CurrencyPair.cpp:172-196 | succeeds exactly if no two valid symbols are misunderstood when put together; reports a conflict and caches the name of the pair understood instead |
| CurrencyRegistries.CurrencyRegistry.ToString | lib/utils/src/CurrencyPair.cpp:469-493 | the cached name, or else the symbols with a slash between them, which is cached; a value without symbol gets an empty one on the way; the fresh name for certain if the pair was not cached or no registration of its ids had failed |
| CurrencyRegistries.CurrencyRegistry.NameRoundTrip | lib/utils/src/CurrencyPair.cpp:469-493 | without slashes in symbols, name and parse give the pair back exactly if no other name was cached for it; in particular if no registration of its ids had failed |
| CurrencyRegistries.CurrencyRegistry.ToStringView | lib/utils/src/CurrencyPair.cpp:469-493 | asking for the name of an unregistered value adds it with an empty symbol: the maps stay inverse exactly if it was registered |
| RegistryExample.StaleName | lib/utils/src/CurrencyPair.cpp:143-196 | the round trip fails for an id used again after a failed registration: a history of calls on a new registry, at whose end the name is A/AA and is not parsed back |
| RegistryExample.SharedName | lib/utils/src/CurrencyPair.cpp:143-196 | a history after which two pairs of a valid registry go by one name |
| Base64.RoundTrip | include/libbase64.hpp:118-268 | every byte string is decoded to itself, and its encoding passes the safety checks |
| Base64.TextRoundTrip | include/libbase64.hpp:118-268 | exactly the empty text and accepted texts without stray bits are encoded back to themselves |
| Base64.SameGroups | include/libbase64.hpp:134-164 | the text spells the groups of 24 bits of the input, six bits a character (section 4 of RFC 4648) |
| Base64.PaddingTells | include/libbase64.hpp:143-164 | the padding tells how many bytes the last group lacks |
| Base64.EncodedSize | include/libbase64.hpp:106-108 | the length is the one calculated beforehand |
| Base64.GetChar | include/libbase64.hpp:71-88 | the character of a six-bit value is in the alphabet and stands for it |
| Base64.AlphabetIs | include/libbase64.hpp:71-88 | the table: upper case, lower case, digits, plus, slash, and the equals sign for padding |
| Base64.Encode | include/libbase64.hpp:118-172 | the loop over triples and the padded rest compute the encoding |
| Base64.Accepts | include/libbase64.hpp:179-226 | the checks accept exactly whole quads of the alphabet with at most two padding characters at the end |
| Base64.Decode | include/libbase64.hpp:174-268 | the loop over quads and the last quad compute the decoding; rejected text gives nothing |
| MonitorTasks.Task.constructor | lib/utils/src/BgwMonitor.cpp:73-82 | active exactly for a positive number of threads of which not more are busy |
| MonitorTasks.Task.UpdateBusyThreads | lib/utils/src/BgwMonitor.cpp:96-112 | the durations stay the times spent at each level since the last result; a change closes the current stretch of time |
| MonitorTasks.Task.UpdateQueueSize | lib/utils/src/BgwMonitor.cpp:114-134 | the same for queue sizes |
| MonitorTasks.Task.UpdateQueueSizeMap | lib/utils/src/BgwMonitor.cpp:136-147 | the duration is added to the entry of the size; the map stays ordered and its total is the time covered |
| MonitorTasks.Task.GetResultAndReset | lib/utils/src/BgwMonitor.cpp:149-173 | the result covers the time from the last result to now; its durations are the times at each level and add up to it exactly |
| MonitorTasks.TotalsAddUp | lib/utils/src/BgwMonitor.cpp:149-173 | results follow each other without gap or overlap; their total durations add up to the time covered |
| Utilization.AddTotal | lib/utils/src/BgwMonitor.cpp:136-147 | adding a duration adds it to the total |
| Utilization.AddAtSize | lib/utils/src/BgwMonitor.cpp:136-147 | and to its size only |
| Utilization.RatesAreFractions | lib/utils/src/BgwMonitor.cpp:15-31 | busy and fully occupied rates lie in [0, 1] |
| Utilization.RatesMean | lib/utils/src/BgwMonitor.cpp:15-31 | the shares of the time with some thread busy, and with all threads busy |
| Utilization.NoRates | lib/utils/src/BgwMonitor.cpp:10-31 | a result without time or threads has rates 0 |
| Utilization.ExtremeSizes | lib/utils/src/BgwMonitor.cpp:47-55 | least and greatest queue size bound all sizes and are among them; 0 without any |
| Utilization.UtilizationIsFraction | lib/utils/src/BgwMonitor.cpp:33-45 | and so does the average utilization |
| Utilization.UtilizationMeans | lib/utils/src/BgwMonitor.cpp:33-45 | times threads and busy time it gives the busy time added up over threads; 0 if nothing was busy |
| Utilization.AverageUtilization | lib/utils/src/BgwMonitor.cpp:33-45 | the loop computes the weighted mean |
| Utilization.AverageSizeBetween | lib/utils/src/BgwMonitor.cpp:57-71 | the average queue size is the time-weighted mean of the sizes and lies between least and greatest |
| Utilization.AvgQueueSize | lib/utils/src/BgwMonitor.cpp:57-71 | the loop computes it |
| ObjectPools.BufferPool.constructor | lib/utils/include/Utils/ObjectPool.h:79-92 | the free list holds all buffers in order |
| ObjectPools.BufferPool.ChainLength | lib/utils/include/Utils/ObjectPool.h:107 | the free list has exactly as many buffers as capacity less those in use |
| ObjectPools.BufferPool.GetRawBuffer | lib/utils/include/Utils/ObjectPool.h:114-132 | hands out a buffer that nobody holds, the one freed last, never the end mark; falls back to the heap exactly if the free list is empty |
| ObjectPools.BufferPool.ReleaseBuffer | lib/utils/include/Utils/ObjectPool.h:138-151 | the buffer is first in the free list; free and outstanding buffers stay a partition |
| ObjectPools.BufferPool.Write | lib/utils/include/Utils/ObjectPool.h:114-132 | what the owner writes into a buffer does not touch the free list |
| ObjectPools.BufferPool.ReleaseAndGet | lib/utils/include/Utils/ObjectPool.h:114-151 | releasing and asking again gives the same buffer and leaves the pool as before |
| ObjectPools.BufferPool.InitBuffers | lib/utils/include/Utils/ObjectPool.h:157-180 | each buffer points to the next |
| Durations.RoundTripExactlyWhen | lib/utils/src/Utils.cpp:93-198 | a duration is read back from its text exactly if it is a double, on any machine that reads numbers and multiplies with rounding to doubles |
| Durations.RoundTrip | lib/utils/src/Utils.cpp:93-198 | every duration up to 2^53 nanoseconds, of either sign, is read back from its text through doubles |
| Durations.OddIsRoundedOnce | lib/utils/src/Utils.cpp:150-198 | an odd number of nanoseconds is read as it is rounded |
| Durations.RoundingMachineWorks | lib/utils/src/Utils.cpp:150-198 | rounding to the nearest double, ties to even, is one of the machines for which these results hold |
| Doubles.FirstGap | lib/utils/src/Utils.cpp:150-198 | 2^53 + 1 is rounded to 2^53: the first duration that is not read back |
| Durations.TextIsUnique | lib/utils/src/Utils.cpp:93-148 | different durations have different texts |
| Durations.NanosecondsToString | lib/utils/src/Utils.cpp:93-148 | the count of the greatest unit, from ns to d, of which the duration is a whole number, without leading zeros, and with a minus sign exactly for negative durations; 0 without unit |
| Durations.UnitTable | lib/utils/src/Utils.cpp:118-146 | the nanoseconds of each unit and its letters |
| Durations.PlacesCount | lib/utils/src/Utils.cpp:93-198 | digits count by their places, in tens |
| Durations.StopIsGreatest | lib/utils/src/Utils.cpp:103-117 | dividing unit by unit ends at the greatest one |
| Durations.StringToNanoseconds | lib/utils/src/Utils.cpp:150-198 | unit letters of either case, blanks before the unit, the number scaled and truncated |
| Durations.UnitsOfEitherCase | lib/utils/src/Utils.cpp:154-191 | which unit the last one or two characters stand for, in either case; others count nanoseconds |
| Durations.BlanksSkipped | lib/utils/src/Utils.cpp:193-196 | blanks between number and unit do not matter |
| Durations.NumberAndUnit | lib/utils/src/Utils.cpp:150-198 | a number, blanks and a unit: the number is multiplied with the nanoseconds of the unit, and the fraction dropped |

## Left out

- Base64.Accepts: takes the alphabet as its 64 characters, because what a search beyond an array without terminator finds is not determined by the code.
- CurrencyRegistries.CurrencyRegistry.ToString: does not model pairs that are neither valid nor empty, because the order by which the name cache finds its entries is not consistent on them.
- OneToOneQueues.OneToOneQueue.QueueSize: reads both indices at one moment, because nothing else happens inside a method; steps between the two reads are the subject of `RingBuffer.SizeReadInSteps`.
- Timer: `detachThreads`, the condition variable (a worker may look at the map at any time), exceptions of actions, and logging.  An action that changes its own task is modelled, but replacing the action itself is not.
- BackgroundWorker: pausing, automatic flushing, detached stop, and that a stop terminates: its steps are methods, which other threads may interleave; the shutdown flag is raised and notified without the queue mutex, so sleepers can miss it.
- BackgroundWorker: idle-thread counters, waiting times and the exception handler, which do not influence the queue.
- Pipeline: names are those of one state of the registry.  Registered pairs keep their names (`CurrencyRegistry.RegisterCurrency`), and pairs that are registered during a run are not in its feed.
- Pipeline: `OrderBook::Clear` between messages, and entries whose reference id differs from their id; the table's own methods are modelled for all ids.  Each connection handles its messages on one thread.
- Quote times, originators and positions, `SetInvalid`, the cleanup of outdated quotes and the per-pair locks of the book.
- Prices and quantities are reals before they are rounded; overflow of 64-bit integers is not modelled anywhere.
- CurrentRateManager: default and mid rates and snapshots.
- OneToOneQueue: the effects of relaxed atomics beyond sequential consistency, `Dequeue(idx)` and `Insert`, and its worker thread.
- QuoteGroup: the race between calculating and caching aggregates; `AddQuotes` of a group to itself, which locks one mutex twice.  The copy of `PartialAvgPrice` in `QuoteGroup.h` is the same code as the one modelled.
- CurrencyRegistry: the built-in table is taken as any list of distinct three-character symbols; configuration files, precisions and masks.
- Base64: table entries outside the alphabet, which the checks exclude, and the build without these checks.
- Durations: texts that are no whole numbers are read by the library, which is a parameter; the conversion of a double beyond 64 bits to an integer.
- BgwMonitor: the list of tasks behind one monitor, which forwards every update to each active task.
- ObjectPool: buffers from the heap, which are counted on release but not on allocation, and constructors and destructors of pooled objects.
- GridStrategy, Position, exchange connectors, WebSocket, REST, JSON, logging and options: I/O, or laws that the code does not keep.
