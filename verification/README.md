# A verified model of the exchange core

The exchange receives binary order messages, parses them, routes each one by its ticker to one of thirty-one buckets,
and lets one thread per bucket edit and match the books of its symbols. Three containers and a queue carry the state:
a book stores its orders in a hive and finds them through a robin-hood table, and messages reach a bucket through a
lock-free queue. A JSON library serves the tools around it.

This project models these parts and proves what they promise, over every input, every run of their methods and every
interleaving of their threads. The modules follow the source:

- `Types`, `Sums`: the order record, fixed-width values, sums over finite maps.
- `BookModel`, `BookInvariant`, `OrderBooks`: the book as a value, what keeps it consistent, and the class whose
  methods add, modify, cancel and match.
- `Progress`, `Messages`: every message on a book in order can be carried through to its end, and what it does to
  every order of the book.
- `Auction`, `LevelRefinement`, `Aggressor`: what a finished matching loop means: the optimum of an auction, the
  result of a simple loop over level totals, and trades that all belong to the order that has just arrived.
- `Exchange`, `Sharding`, `ExchangeLog`: routing, the receiver and the bucket threads as a step machine, and what
  becomes of every received order and every logged trade.
- `Tickets`, `FreeList`, `BlockIndex`, `BlockQueue`, `WholeQueue`: the lock-free queue as machines that take one
  atomic operation of one thread at a time: the tickets of the consumers, the free list of blocks, the lookup of a
  block, the life of blocks and of the ring that finds them, and a whole dequeue made of a ticket and a lookup.
- `QueueProgress`, `BlockReturns`, `FreeListAlone`, `LoneQueue`: what these machines achieve: an enqueue ends with its
  element in the queue, a dequeue with its element out of it, emptied blocks come back, and what each operation does
  when it runs alone.
- `HiveBlock`, `HiveGroup`, `Hive`, `PriceLevels`: the skipfield and the free list of a block as sequences, one block
  as a class over arrays, a hive of many blocks, and the orders of a price level in a hive.
- `RobinHood`, `RobinHoodCrowding`, `RobinHoodTable`: the laws of the info bytes, which sets of keys a table can
  place, and the table as a class over its two arrays.
- `JsonPointer`, `JsonPatch`, `JsonDiff`: pointers (RFC 6901), patches (RFC 6902) and the patch that `diff` computes.
- `JsonEquality`, `PatchMeaning`: which values compare equal, and what each of the six patch operations does and when
  it succeeds.
- `OrderParser`: the wire format, the parser, and the bytes that the client and the order script write.

Code that updates fields or arrays is a class or a method proved against functions and predicates on values; the
lemmas about those say what the update means. Threads are steps on a state; a `Run` is any sequence of steps from an
initial state. Hash functions, free cells, the front order of a level and the blocks handed out are arbitrary.

## Model

| member | source | states |
|---|---|---|
| OrderBooks.Orderbook.Add | src/orderbook.cpp:37-63 | For every order, the error that applies first and an unchanged book, or the order in a cell of its own at its price; ids, index, level totals and non-empty levels stay in agreement |
| OrderBooks.Orderbook.Modify | src/orderbook.cpp:65-106 | The new order takes the place of the resting one, possibly at another price or side, or nothing changes and the error says why; index and levels agree afterwards exactly if it carries the same id |
| OrderBooks.Orderbook.Cancel | src/orderbook.cpp:108-135 | Exactly the order with that id and its index entry go, an emptied level with them; an unknown id changes nothing |
| OrderBooks.Orderbook.Execute | src/orderbook.cpp:137-182 | The loop terminates with no bid reaching an ask; its trades each take the smaller quantity from fronts of the best levels, and the book stays in agreement |
| OrderBooks.Orderbook.BestBid | src/orderbook.cpp:27-30 | The greatest bid price, or none exactly when there are no bids |
| OrderBooks.Orderbook.BestAsk | src/orderbook.cpp:32-35 | The least ask price, or none exactly when there are no asks |
| BookInvariant.IdsAreUnique | includes/orderbook.h:61-67 | No two resting orders of a consistent book share an id, on either side and at any price |
| BookInvariant.MatchingKeepsValid | src/orderbook.cpp:139-181 | Any number of matching rounds keeps index, totals and levels in agreement |
| Auction.Conservation | src/orderbook.cpp:147-168 | In every price range, what a side loses is what the trades at those prices report |
| Auction.BothSidesLoseTheVolume | src/orderbook.cpp:147-168 | Bid quantity lost, ask quantity lost and the sum of the reported trades are one number |
| Auction.AuctionOptimum | src/orderbook.cpp:137-182 | The traded volume is the maximum over all prices of the smaller of demand at or above and supply at or below the price |
| Auction.VolumeIsDetermined | src/orderbook.cpp:137-182 | Any two finished runs on one book trade the same volume, whatever fronts they pick |
| LevelRefinement.ExecuteRefinesLevelMatch | src/orderbook.cpp:139-181 | With positive quantities the totals left at each price are those of a loop that only subtracts the smaller of the two best totals |
| LevelRefinement.HiveOrderDoesNotMatter | src/orderbook.cpp:139-181 | Two books with equal level totals end with equal level totals, whatever orders make up the levels and in whatever order |
| Aggressor.AggressorIsAParty | src/local_exchange.cpp:155-178 | One message on an uncrossed book leaves it uncrossed; its own order is a party to every trade and trades what does not stay in the book, and a message that adds no order causes no trade |
| Aggressor.HandledKeepsPositive | src/local_exchange.cpp:155-178 | Messages with a positive quantity keep every resting quantity positive |
| Progress.CanEdit | src/local_exchange.cpp:162-176 | On every book in order every message, whatever its status, has an outcome |
| Progress.RunCanFinish | src/orderbook.cpp:139-181 | Every started run of the matching loop can be finished, because no level is empty and each round uses up an order |
| Messages.EditDoesWhatIsAsked | src/local_exchange.cpp:162-176 | A new order joins the others unless its id is taken, a cancel takes exactly its order out, an update replaces exactly its order, and a refused message leaves every order as it is |
| Messages.TradesTake | src/orderbook.cpp:139-181 | Over the whole matching loop every order keeps its price, side and the quantity that the trades naming it did not take, and goes only when they took all of it |
| Messages.MessageEffect | src/local_exchange.cpp:155-178 | After a message every order is as the message asked, less what the trades naming it took; orders the message and the trades do not name are untouched |
| Messages.GoneMeansUsedUp | src/local_exchange.cpp:155-178 | With positive quantities an order rests after a message exactly if the trades have left something of it |
| Messages.CancelTakesOut | src/local_exchange.cpp:166-168 | A cancel on an uncrossed book takes its order out, trades nothing and touches no other order |
| Exchange.RoutingIsTotalOnLetters | src/local_exchange.cpp:27-45 | A symbol has a bucket exactly when it starts with a letter, and the bucket is one of the listed ones |
| Exchange.BucketsHold | src/local_exchange.cpp:27-45 | For every bucket exactly the symbols it holds, by the ranges of their first and second letter |
| Sharding.BooksAreSequential | src/local_exchange.cpp:116-182 | In every reachable state a book that is not being worked on is the sequential result of a prefix of its symbol's accepted messages in arrival order, consistent, uncrossed and with positive quantities |
| Sharding.EditedBooksAreSequential | src/local_exchange.cpp:155-178 | In the middle of a message the book is an edit, by the next accepted message, of such a result |
| Sharding.DrainedBooksAreComplete | src/local_exchange.cpp:116-182 | Once a bucket's queue is drained, its books have handled all the messages accepted for them |
| Sharding.OnlyAggressorsTrade | src/local_exchange.cpp:143-182 | The branch for a missing book is never taken, and in the whole log two resting orders never trade with each other |
| Sharding.WorkersAreNeverBlocked | src/local_exchange.cpp:148-178 | In every reachable state a bucket thread with a message in hand finds its book and can edit it, and one that has edited it can finish the matching loop |
| ExchangeLog.AcceptedAreReceived | src/local_exchange.cpp:116-141 | Whenever the receiver is between messages, the accepted orders are exactly the received ones whose symbol has a bucket, in the order of arrival |
| ExchangeLog.ReceiverFinishes | src/local_exchange.cpp:116-141 | The receiver can finish every message: bucket and book are there afterwards and the order is the last of its queue |
| ExchangeLog.LogIsTheRun | src/local_exchange.cpp:143-182 | In every reachable state the log has one entry for each finished message, in order, and each book is what handling its messages gives, with exactly the logged trades |
| Tickets.CircularLessIsLess | includes/concurrentqueue.h:477-483 | On wrapped indices the comparison is the plain order while the indices are less than half the range apart |
| Tickets.ShortRunsAreRuns | includes/concurrentqueue.h:1955-2051 | In every run of fewer than 2^63 operations all comparisons are between such near indices, so what follows holds of it |
| Tickets.HeadNeverPassesTail | includes/concurrentqueue.h:1955-2051 | With any number of consumers the head never passes the tail, the optimistic count is head plus overcommit plus consumers in flight, and indices below the head are claimed once each |
| Tickets.ClaimsAreEnqueued | includes/concurrentqueue.h:1984-2016 | A consumer whose ticket passed finds an element at the head, and the element it is about to read is enqueued and unread |
| Tickets.QuietStateHandedOutThePrefix | includes/concurrentqueue.h:1955-2051 | With no consumer inside a dequeue, exactly the elements below the head have been handed out, each at its index |
| Tickets.LoneDequeue | includes/concurrentqueue.h:2551-2619 | From a quiet state a dequeue that runs alone claims the head when there is an element, and otherwise leaves the state as it was |
| FreeList.ListIsAcyclicAndCounted | includes/concurrentqueue.h:1459-1538 | In every interleaving the list has no repetition, the word of every node is its holders, plus one while the list claims it, plus the should-be-on-list bit while it is wanted, and the bit is clear after a pop |
| FreeList.NoDoubleHandOut | includes/concurrentqueue.h:1473-1512 | Between two pops of one node some client has called add on it |
| FreeList.QuietListIsComplete | includes/concurrentqueue.h:1459-1538 | When no thread is inside an operation, every node is on the list or with a client, with the count that says so |
| FreeListAlone.LoneTryGet | includes/concurrentqueue.h:1473-1512 | From every quiet reachable state a pop that runs alone hands out the first node and leaves the rest of the list, or, on an empty list, leaves the state as it was |
| FreeListAlone.LoneAdd | includes/concurrentqueue.h:1459-1538 | From such a state an add that runs alone ends with its node in front of the list |
| BlockIndex.LookupHits | includes/concurrentqueue.h:2948-2964 | With wrapped keys and a ring of any power of two, the lookup computes the place of every block less than one ring behind the tail |
| BlockQueue.LookupFindsTheBlock | includes/concurrentqueue.h:2948-2964 | In every state that keeps the invariant, under growth and reuse, the entry found carries the block's key and a block, whatever ring the consumer has loaded |
| BlockQueue.TakenIsEnqueued | includes/concurrentqueue.h:2487-2619 | In every reachable state the element taken at an index is the one enqueued there, and no lookup has failed |
| BlockQueue.NothingIsTakenTwice | includes/concurrentqueue.h:2551-2619 | Two consumers never hold one index, and an index about to be read has not been read |
| BlockQueue.QuietQueueIsFifo | includes/concurrentqueue.h:2487-2619 | With no consumer at work exactly the first head elements have come out, each as it went in |
| BlockQueue.FreeBlocksAreEmpty | includes/concurrentqueue.h:1597-1611 | A block is free for reuse only when every element it held has been taken, also while the ring grows |
| QueueProgress.EnqueueAppends | includes/concurrentqueue.h:2487-2548 | However consumers interleave, an enqueue ends within eight operations of the producer, with its element at the end of the queue, or with the queue as it was exactly if an allocation failed on the way |
| QueueProgress.DequeueEnds | includes/concurrentqueue.h:2551-2619 | However the others interleave, a dequeue that has claimed an index ends within ten operations of its thread, and the element of that index has come out |
| BlockReturns.BlocksComeBack | includes/concurrentqueue.h:1597-1611 | When nobody is inside an operation every block the queue started with is in use or free again, and free exactly when all it held has been taken |
| WholeQueue.StepsProject | includes/concurrentqueue.h:2551-2619 | Every step of a dequeue with its ticket and its lookup is a step, or no step, of the ticket machine and of the block machine |
| WholeQueue.DequeueGetsItsElement | includes/concurrentqueue.h:2551-2619 | In every run of fewer than 2^63 operations a dequeue that passed its check finds the element of its own index, unread, in a block that is still there |
| WholeQueue.QuietQueueIsFifo | includes/concurrentqueue.h:2487-2619 | When nobody is inside a dequeue exactly the elements below the head have come out, and the count is the head plus the overcommit |
| WholeQueue.LoneRunIsASequence | src/local_exchange.cpp:139-147 | With one consumer, every step of every run of tickets and blocks together leaves the queue alone, adds an element at its end or takes the one at its front, which is how a bucket thread uses it |
| LoneQueue.DequeueIsWaitFree | includes/concurrentqueue.h:1955-2051 | In every interleaving each operation of a dequeue's own thread brings it nearer to its end, of which it has at most sixteen, and nobody else's operation moves it |
| LoneQueue.LoneDequeueTakesTheFront | includes/concurrentqueue.h:1955-2051 | From every quiet reachable state a dequeue that runs alone, ticket, lookup and release together, takes the front element and nothing else, or leaves an empty queue as it was |
| HiveBlock.EraseSolo | includes/plf_hive.h:1920-1943 | Without erased neighbours a new run of one is made and its cell becomes the head of the free list; runs, links and other elements stay well formed |
| HiveBlock.EraseLeft | includes/plf_hive.h:1944-1947 | After a run, both ends of the longer run carry its length and the free list need not change |
| HiveBlock.EraseRight | includes/plf_hive.h:1948-1975 | Before a run, the run starts one cell earlier and the free list links to its new start |
| HiveBlock.EraseBoth | includes/plf_hive.h:1976-2004 | Between two runs, one run results and the second one's entry leaves the free list |
| HiveBlock.NextAndPrevAreInverse | includes/plf_hive.h:3833-3879 | Within a block the jumps of ++ and -- undo each other |
| HiveBlock.IterationIsComplete | includes/plf_hive.h:3833-3849 | From the cell the first skipfield number points to, ++ visits exactly the live cells, in order |
| HiveGroup.Group.Erase | includes/plf_hive.h:1904-2006 | On the arrays of a block: exactly one element goes, no other moves, skipfield and links stay well formed, and the return value is where ++ would have led |
| HiveGroup.Group.Reuse | includes/plf_hive.h:868-910 | The element goes into the first cell of the latest run, which held none, no other moves, and the run's remainder stays on the free list |
| HiveGroup.Group.Append | includes/plf_hive.h:975-985 | The element goes into the first cell never used and no other moves |
| Hive.Hive.Insert | includes/plf_hive.h:969-1069 | The element gets a cell that held none and no other element moves; with an erased cell present it is the start of the latest run in the block at the head of the list, else the next cell of the end block, and only when that is full the first cell of another block |
| Hive.Hive.Erase | includes/plf_hive.h:1890-2089 | Exactly the element at the position goes, no other moves, and the iterator returned leads to the next element or the end; a block that empties leaves the chain |
| Hive.Hive.Next | includes/plf_hive.h:3833-3849 | ++ leads to the first element after a position, across blocks, or to the end |
| Hive.Hive.Prev | includes/plf_hive.h:3863-3879 | -- leads to the last element before a position, across blocks |
| Hive.Hive.Visit | includes/plf_hive.h:3833-3849 | From begin to end every element of the hive is visited exactly once, in order |
| Hive.StepsAreInverse | includes/plf_hive.h:3833-3879 | Over the whole hive -- undoes ++ and ++ undoes -- |
| Hive.Hive.Assign | includes/plf_hive.h:3819-3829 | Writing through an iterator changes that element only, and leaves blocks, links and iterators alone |
| PriceLevels.PriceLevel.Insert | src/orderbook.cpp:46-51 | On the hive of a level: the order gets a cell free until now, and every other order keeps its cell, which is the insertion of the book model |
| PriceLevels.PriceLevel.Erase | src/orderbook.cpp:118-122 | Exactly the order in the cell that the iterator points to goes, and every other keeps its cell |
| PriceLevels.PriceLevel.Fill | src/orderbook.cpp:150-173 | The front order is reduced in place and leaves the level exactly when nothing is left, which is the fill of the book model |
| PriceLevels.PriceLevel.Front | src/orderbook.cpp:146-148 | The begin iterator of a level that holds orders points to one of them |
| RobinHood.RoomBeforeSentinel | includes/robin_hood.h:2152-2155 | While the table may still grow there is an empty slot between every insertion point and the sentinel, so no node is ever placed at or past it |
| RobinHood.InsertRefines | includes/robin_hood.h:2365-2396 | Shifting up and placing the node keeps the order of the info bytes and adds exactly one binding |
| RobinHood.EraseRefines | includes/robin_hood.h:1396-1416 | Shifting down keeps the order of the info bytes and removes exactly one binding |
| RobinHood.HalvingRefines | includes/robin_hood.h:2399-2425 | Halving every info byte keeps the table in order with the same bindings, and leaves room for one more increment in every byte |
| RobinHoodTable.Table.FindIdx | includes/robin_hood.h:1419-1442 | The slot returned holds the key, or the end is returned and no slot holds it, for any hash function |
| RobinHoodTable.Table.InsertOrAssign | includes/robin_hood.h:2289-2397 | On success the map changes at that key only, on overflow not at all, on a throw it loses a binding; it succeeds whenever the keys are not crowded in the next layout, always with at most 126 keys; it throws if the first rehash cannot place them, and never succeeds for a new key if no layout spreads them |
| RobinHoodTable.Table.Erase | includes/robin_hood.h:2050-2068 | The map loses that key only, and the result says whether it was there |
| RobinHoodTable.Table.Find | includes/robin_hood.h:1940-1947 | The value bound to the key, exactly when there is one |
| RobinHoodTable.Table.Contains | includes/robin_hood.h:1904-1915 | True exactly for the keys of the map |
| RobinHoodTable.Table.TryIncreaseInfo | includes/robin_hood.h:2399-2425 | Room for distances is gained exactly while a hash bit is left to give up, and no binding changes |
| RobinHoodTable.Table.RehashPowerOfTwo | includes/robin_hood.h:2216-2249 | It completes exactly if the keys, but for the one in the last used slot, are not crowded in the new layout; the map is the same exactly if it completes, and otherwise keeps at least 127 bindings but not all |
| RobinHoodTable.Table.IncreaseSize | includes/robin_hood.h:2428-2456 | It succeeds exactly if no node has to move or the rehash completes, and keeps the map exactly then; afterwards there is room without another rehash unless the keys are crowded |
| RobinHoodCrowding.PlaceableWhenUncrowded | includes/robin_hood.h:1376-1394 | A table that can take a node without a rehash is not crowded, that is, no stretch of n home slots has n + 126 keys; and one that is not crowded can, if it is marked full only where a byte is |
| RobinHoodCrowding.FewFit | includes/robin_hood.h:1450-1456 | At most 127 keys can be rehashed to any layout |
| RobinHoodCrowding.SharedHomeDoesNotFit | includes/robin_hood.h:1450-1456 | 128 keys or more that share a home in the new layout cannot, wherever they were before |
| RobinHoodCrowding.SomeTableIsDoomed | includes/robin_hood.h:2224-2231 | A table in order, of 128 keys, which loses a binding whatever new key is inserted |
| JsonPointer.ReplaceSubstring | includes/nlohmann/detail/string_escape.hpp:30-40 | The find-and-replace loop is the left-to-right replacement of all occurrences that do not overlap |
| JsonPointer.UnescapeUndoesEscape | includes/nlohmann/detail/string_escape.hpp:49-69 | Unescaping an escaped token gives it back, and an escaped token is well formed and has no slash |
| JsonPointer.EscapeUndoesUnescape | includes/nlohmann/detail/string_escape.hpp:49-69 | Escaping an unescaped token gives it back, for every token a pointer can contain |
| JsonPointer.SplitString | includes/nlohmann/detail/json_pointer.hpp:666-724 | The loop over slashes computes the recursive definition, errors included |
| JsonPointer.SplitAccepts | includes/nlohmann/detail/json_pointer.hpp:666-724 | Exactly which strings are pointers, and which of the two errors the others raise |
| JsonPointer.SplitUndoesToString | includes/nlohmann/detail/json_pointer.hpp:68-76 | Parsing a printed pointer gives back every list of tokens |
| JsonPointer.ToStringUndoesSplit | includes/nlohmann/detail/json_pointer.hpp:666-724 | Printing the tokens of an accepted string gives back the string |
| JsonPointer.IndexIsItsDecimal | includes/nlohmann/detail/json_pointer.hpp:213-249 | An array index is accepted exactly when it is the decimal text of a number below the size limit |
| JsonPatch.RoundingIsNear | includes/nlohmann/json.hpp:3648-3671 | The conversion of an integer before it is compared with a float errs by at most half the spacing of doubles, and not at all below 2^53 |
| JsonEquality.EqIsEquality | includes/nlohmann/json.hpp:3608-3677 | Values whose numbers are all signed, all unsigned or all floats compare equal exactly when they are the same, through every array and object |
| JsonEquality.SignedEqualsUnsigned | includes/nlohmann/json.hpp:3664-3671 | A signed and an unsigned number compare equal exactly when they agree modulo 2^64, so two different numbers do exactly when one is negative and the other larger by 2^64 |
| JsonEquality.MinusOneEqualsTheLargest | includes/nlohmann/json.hpp:3664-3671 | An input of that kind |
| JsonEquality.RoundsToNearest | includes/nlohmann/json.hpp:3648-3663 | The conversion before a comparison gives the nearest double, ties to even, and only that |
| JsonEquality.IntegerEqualsFloat | includes/nlohmann/json.hpp:3648-3655 | A signed integer compares equal to a float exactly when that is the double nearest to it, below 2^53 exactly when they are the same number |
| JsonEquality.UnsignedEqualsFloat | includes/nlohmann/json.hpp:3656-3663 | The same for an unsigned integer |
| JsonPatch.GetChecked | includes/nlohmann/detail/json_pointer.hpp:421-455 | The loop along a pointer reaches the value that following its tokens one by one reaches, or raises the same error |
| JsonPatch.AddedValueIsThere | includes/nlohmann/json.hpp:4784-4849 | An added value is found at its path afterwards, unless it was appended with "-" |
| JsonPatch.RemoveUndoesAdd | includes/nlohmann/json.hpp:4784-4878 | Removing what was added restores the document exactly when the parent is an object that had no member of that name, or an array and the token is not "-" |
| JsonPatch.OverwrittenMemberIsLost | includes/nlohmann/json.hpp:4784-4878 | An input where it does not: an overwritten member |
| JsonPatch.AppendedElementStays | includes/nlohmann/json.hpp:4784-4878 | Another: an element appended with "-" |
| JsonPatch.AddUndoesRemove | includes/nlohmann/json.hpp:4784-4878 | Adding a removed value at its path restores the document |
| JsonPatch.AddAssertsOnPrimitives | includes/nlohmann/json.hpp:4800-4849 | In builds with assertions an add ends in the failed assertion exactly when the parent exists and cannot hold children; in other builds it then does nothing |
| JsonPatch.RemoveSucceedsExactly | includes/nlohmann/json.hpp:4852-4878 | A removal succeeds exactly when the target exists or its parent cannot hold children, and then changes nothing |
| JsonPatch.RemoveBelowANumberIsSilent | includes/nlohmann/json.hpp:4852-4878 | An input where a removal succeeds without a target |
| JsonPatch.FailedMove | includes/nlohmann/json.hpp:4950-4965 | A failed move leaves the document alone exactly when it had no source to remove |
| JsonPatch.FailedMoveLosesItsSource | includes/nlohmann/json.hpp:4950-4965 | An input where a failed move does change the document |
| JsonPatch.FailureChangesNothing | includes/nlohmann/json.hpp:4886-5013 | A failed operation of any kind leaves the document alone exactly when it is not a move whose source could be removed |
| JsonPatch.FailureKeepsThePrefix | includes/nlohmann/json.hpp:4886-5013 | A failing patch leaves the effect of the operations before the first failing one, and of what that one did |
| JsonPatch.Document.PatchInPlace | includes/nlohmann/json.hpp:4747-5014 | The document ends as the operations one after the other make it, with the exception of the first that fails |
| JsonPatch.Patch | includes/nlohmann/json.hpp:5018-5023 | The result is what patching a copy gives, and the document itself stays as it was, also on failure |
| PatchMeaning.AddSucceedsExactly | includes/nlohmann/json.hpp:4784-4849 | Exactly when an add succeeds: the parent exists and is an object, a null, or an array with a token that is a dash or an index within it |
| PatchMeaning.AddMeans | includes/nlohmann/json.hpp:4784-4849 | Where an added value goes, as a member, before an element or at the end, and that all else in the parent stays |
| PatchMeaning.AddLeavesElsewhere | includes/nlohmann/json.hpp:4784-4849 | Every value at a path apart from the target stays where it was, also when a member is replaced |
| PatchMeaning.RemoveMeans | includes/nlohmann/json.hpp:4852-4878 | A removal takes out that member or element only |
| PatchMeaning.RemoveLeavesElsewhere | includes/nlohmann/json.hpp:4852-4878 | Every value at a path apart from the target stays where it was |
| PatchMeaning.AddOperation | includes/nlohmann/json.hpp:4931-4935 | An add operation succeeds exactly with a value and a place for it, and does what an add means |
| PatchMeaning.RemoveOperation | includes/nlohmann/json.hpp:4937-4941 | A remove operation succeeds exactly as a removal does, and takes out its target |
| PatchMeaning.ReplaceOperation | includes/nlohmann/json.hpp:4943-4948 | A replace succeeds exactly with a value and an existing target, puts the value there and changes nothing apart from it |
| PatchMeaning.MoveOperation | includes/nlohmann/json.hpp:4950-4965 | A move succeeds exactly if its source exists and what is left without it has a place for the target; then the value found there is added to that |
| PatchMeaning.CopyOperation | includes/nlohmann/json.hpp:4967-4980 | A copy succeeds exactly if its source exists and the target has a place; then the value found there is added, and the source stays |
| PatchMeaning.TestOperation | includes/nlohmann/json.hpp:4982-5003 | A test succeeds exactly on an existing target that compares equal to the value, and never changes the document |
| PatchMeaning.OnlySixOperations | includes/nlohmann/json.hpp:4886-5013 | Nothing but the six names succeeds, each with a valid pointer, and move and copy only with a valid source pointer |
| JsonDiff.DiffAt | includes/nlohmann/json.hpp:5028-5158 | At every path, the operations emitted turn the source into a value equal to the target, take all their values from the target, and there are none exactly when the two are equal already |
| JsonDiff.Diff | includes/nlohmann/json.hpp:5028-5158 | Applying the computed patch to the source never throws and yields a value equal to the target, and exactly the target when the numbers of both are stored in one way |
| OrderParser.ParseMessage | src/order_parser.cpp:5-70 | The record filled from the bytes is the message the format defines, with big-endian numbers, or the message is rejected for its length, type or zero fields |
| OrderParser.ParseUndoesWrite | src/client.cpp:111-137 | Every event the client writes is parsed back, and rejected exactly when it is priced without a price or a size |
| OrderParser.PrefixIsRejected | src/order_parser.cpp:8-66 | No proper prefix of a written event is accepted |
| OrderParser.WireIsInjective | src/client.cpp:111-137 | Events with the same bytes agree on every field but the cut-off ends of their names |
| OrderParser.NameSurvives | src/client.cpp:118-127 | A name comes back from its fixed field exactly when it leaves room for a zero byte and contains none |
| OrderParser.EventSurvivesTheWire | src/client.cpp:111-137 | Time, type, price, size and side always come back; id and symbol come back exactly under that condition |
| OrderParser.FourLettersAreCut | src/client.cpp:125-127 | The four letters of AAPL arrive as AAP |
| OrderParser.ParsedOrdersHaveQuantity | src/order_parser.cpp:65-110 | Every parsed order has a side and, unless it cancels, a positive price and quantity: what the books rely on |
| OrderParser.EventBecomesOrder | src/order_parser.cpp:72-111 | From the client's event to the queued order: which status, side, price and quantity it gets |
| OrderParser.TypesMeanWhatTheySay | src/order_parser.cpp:72-111 | For each of the six message types the side, the kind and the status of the order it gives |
| OrderParser.SentOrderIsParsed | src/send_order.py:4-10 | What the parser makes of the bytes of the order script, for every type, price and quantity; updates are rejected because the script writes no side |
| OrderParser.SentNameSurvives | src/send_order.py:8-9 | The script's names come back whole exactly when they contain no zero byte, also when they fill their field |

## Findings

Where the code does not do what its own text or its purpose suggests, the model follows the code and the exact
condition is proved.

- Names are cut: the client copies at most fifteen bytes of an order id and three of a symbol, so a symbol of four
  letters arrives without its last one (`OrderParser.NameSurvives`, `EventSurvivesTheWire`, `FourLettersAreCut`). Two
  orders or symbols that differ only after the cut become one.
- `patch_inplace` is not atomic: a failing patch keeps the operations before it, and a failing move has already
  removed its source (`JsonPatch.FailureKeepsThePrefix`, `FailedMove`, `FailedMoveLosesItsSource`,
  `FailureChangesNothing`).
- `add` below a number, a string or a boolean ends in a failed assertion, although a comment says the parent cannot be
  a primitive (`JsonPatch.AddAssertsOnPrimitives`, with the input `AddBelowANumberAsserts`); in a build without
  assertions the same `add` silently does nothing. `remove` there succeeds and does nothing
  (`JsonPatch.RemoveSucceedsExactly`, `RemoveBelowANumberIsSilent`).
- An `add` is not always undone by a `remove` at the same path (`JsonPatch.RemoveUndoesAdd`): an overwritten member
  (`OverwrittenMemberIsLost`) and an element appended with "-" (`AppendedElementStays`) do not come back.
- A rehash can throw half way, and then the nodes not yet moved are lost. It throws exactly if the keys, but for the
  one in the last used slot, are crowded in the new layout: some stretch of n home slots belongs to n + 126 of them or
  more (`RobinHoodTable.Table.RehashPowerOfTwo`). So tables of at most 127 keys are safe (`RobinHoodCrowding.FewFit`),
  128 keys with one home are not (`SharedHomeDoesNotFit`), and `SomeTableIsDoomed` is a table that loses a binding on
  the next insertion.
- A negative signed number compares equal to an unsigned one that is larger by 2^64
  (`JsonEquality.SignedEqualsUnsigned`, with the input `MinusOneEqualsTheLargest`), so a `test` can pass and a `diff`
  be empty on different values. Integers and floats are compared through the nearest double (`IntegerEqualsFloat`,
  `UnsignedEqualsFloat`). With numbers of one kind equality is exact (`EqIsEquality`).
- `modify` does not check that the new order carries the id it is filed under; if it does not, the index disagrees
  with the levels afterwards (`OrderBooks.Orderbook.Modify`). The exchange always passes equal ids
  (src/local_exchange.cpp:156-171).

## Left out

- PriceLevels: the orders of a level over a hive; the cached total beside them is a number that `OrderBooks` keeps.
  The class `OrderBooks.Orderbook` itself holds a level as a map from cells to orders, the view that `PriceLevels`
  proves of a hive. No order within a level is claimed: the hive reuses erased cells, so the code has no time
  priority.
- The order log and its timestamps.
- Sharding: one receiver; `add_symbol` and `enqueue_order` run in its thread. Its queue is a sequence, which is what
  `WholeQueue.LoneRunIsASequence` proves of a queue with one consumer. Starting and stopping the exchange, and the
  unsynchronised access to the hash maps that receiver and bucket threads share, are not modelled.
- Weak memory orders and fences: every atomic operation is one step of an interleaving.
- Tickets: counters are unbounded and the code's comparisons are made on their wrapped values; runs of 2^63 operations
  or more are outside the theorems.
- BlockQueue: the implicit producer's ring. The explicit producer shares the ticket protocol; its own circular list of
  blocks, bulk operations, the rotation of consumer tokens and the hash of producers are not modelled. A claim is one
  step there; `WholeQueue` shows that the ticket protocol justifies it. Free blocks are a set, and are not connected
  to `FreeList`, which is proved by itself.
- BlockIndex.LookupHits: rings of up to 2^58 entries, more than any address space holds; a bit mask is a remainder.
- Hive: groups are sequences instead of pointers, the lists of erased-into and of unused groups too; group numbers and
  capacity totals are left out, as are range insert and erase, `splice`, `sort`, `reserve`, `advance` and reverse
  iterators.
- RobinHoodTable.Table.TryIncreaseInfo: halves its bytes one at a time; `RobinHoodTable.WordHalvesItsBytes` shows
  beside it that shifting and masking a 64-bit word of eight bytes does the same. The hash is an arbitrary function of
  multiplier and key, sizes are unbounded up to the overflow test, and the approximate capacity formula above 2^64 /
  100 is left out.
- Allocation failure outside the queue, exceptions of element constructors, alignment, destructors, moves and swaps.
- JsonPatch: floats are reals without NaN and infinities; integers are rounded to doubles before they are compared
  with them. Binary and discarded values, `flatten` and `unflatten`, and the JSON text formats are left out. Object
  members are visited in some order. When both operands of a test fail the left one is reported.
- JsonDiff.Diff: requires arrays with fewer than 2^64 elements, which any machine provides.
- OrderParser.ParseUndoesWrite: the client's conversion of a price text to cents happens before the event and is not
  modelled.
- OrderParser.SentOrderIsParsed: names that fit their fields; the script does not cut longer ones, and the bytes that
  follow them are then out of place.
- Network, files, clocks, logging and the market-data scripts.
