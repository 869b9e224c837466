# Swirly: what its hardest parts guarantee

A Dafny model of the self-contained parts of the matching engine in which a mistake is hardest to see, with proofs of what
they guarantee. `dafny verify dfyconfig.toml` checks the whole project.

| files | part |
|---|---|
| `RingProtocol`, `RingProgress`, `RingReserve`, `RingBatch`, `MemQueue` | the bounded lock-free queue: every load, swap and store of any number of threads is a step of an interleaved state machine, which refines a first-in first-out queue and in which no thread waits for another; then the class that one thread runs without interference |
| `MsgQueue` | lists of ids split into fixed-size messages, posted in batches, and read back by the journal |
| `MemClasses`, `PoolProtocol`, `PoolProgress`, `MemCtx` | the lock-free block pool: tagged free lists and a bump allocator, interleaved; then the class |
| `BookSpec`, `MarketSide` | one side of the order book: the level set and the order list on values, and the classes that update them in place |
| `Posn` | the incremental net cost of a position against the history of its trades |
| `FixText`, `FixStream`, `FixParser`, `FixTokeniser` | the FIX printer, framer, tokeniser and tag search, and their round trips |
| `HttpLength`, `HttpMethods`, `HttpBody`, `HttpParser` | Content-Length and chunk-size arithmetic, the method matcher, and the body and chunk machine over any buffers |
| `HttpUrl`, `HttpUrlParts`, `HttpUrlText` | the URL splitter, and assembling a URL as its inverse: exactly the assembled texts are accepted |

An object that the source updates in place is a class here, proved against a specification on values: each method's
postcondition gives the whole new abstract state, and lemmas about the specification say what that means. A lock-free
structure appears twice, as an interleaved machine over which the safety theorems range, and as a class whose methods are
runs of that machine by one thread. Weak compare-and-swaps may fail spuriously in both.

Exceptions are results (`thrown`, `bad`, `Thrown`, `Nowhere`, `Refused`, `Failed`), an abort is `aborted`, and a loop that
never ends is `Endless`. Values handed in by callers, clocks and client
writes into allocated memory are parameters or arbitrary steps.

## Where the code does less than it seems to promise

Each of these is proved, with the exact condition under which the code does meet the promise.

- The in-memory queue constructor numbers only the requested slots. For a request that is not a power of two the queue
  jams for good after as many posts as were requested (`RingProtocol.PartlyNumberedQueueJams`, `RingProtocol.StartIsGood`).
- `reserve() >= n` lets the next n posts succeed only if no fetch of the slots concerned is between its swap and its store
  (`RingReserve.FreeAheadMeaning`, `RingReserve.BrokenPromise`, `RingBatches.DrainingIsReachable`); and with a post between
  its two loads `reserve` itself can wrap (`RingReserve.ReserveCanWrap`).
- Splitting and reading back loses ids when an id is zero, and an empty list posts one message although `steps()` is zero
  (`MsgQueues.SplitThenRead`, `MsgQueues.SplitCount`).
- A release may file a block under a smaller class than it came from (`MemClasses.DeallocNeverGrows`), and a pool limit
  within 2048 bytes of 2^32 is not safe (`PoolAlone.LimitTooLarge`). The tag of the 2^32nd push of a class is zero again,
  and a free block can be lost there (`PoolAlone.LastTagLosesBlock`).
- The 63 greatest sizes are not refused but served with 64 bytes, because rounding up wraps (`MemClasses.AllocFits`), and
  releasing such a block aborts (`MemClasses.ReleasableExact`).
- A FIX body of 10000 bytes or more runs its length over the text before it (`FixText.FramedExact`,
  `FixParsing.LongBodyMisread`), and its checksum is wrong as well (`FixText.CheckSumExact`). The checksum rule itself is that of the FIX 4.2 specification, Appendix B.
- The size of a FIX message is computed in 64 bits. For a length field of 18446744073709551600 the parser hands over a body
  that reaches past the buffer and moves on by 24 bytes, and for 18446744073709551576 its loop never ends
  (`FixParsing.HugeLength`, `FixParsing.HugeLengthInput`); what it delivers is what the bytes say exactly when the lengths
  fit (`FixParsing.ExactWhenLengthsFit`).
- The table of hexadecimal digits has entries for ASCII only, and the rest of it is zero rather than -1: in a chunk size
  every byte from 0x80 on counts as the digit 0, so that a line of this one byte ends the body (`HttpBodies.HighByteLines`).
  The length of an accepted size line is what stands there in hexadecimal exactly when there is no such byte
  (`HttpBodies.LengthIsHexadecimal`).
- Content-Length stops short of 2^64: 18446744073709551610 is refused although it fits (`HttpLengths.ReadContentLength`),
  and a space between two digits is skipped rather than refused.

Body framing is section 3.3 of RFC 7230 and chunked coding section 4.1 of RFC 7230; the parser also takes a space before
chunk extensions.

## Model

| member | source | states |
|---|---|---|
| `RingProtocol.EveryRunIsFifo` | src/swirly/app/MemQueue.hpp:158-212 | Over every interleaving of any number of posts and fetches on a fully numbered queue: positions are claimed once each and in order, `0 <= wpos - rpos <= capacity`, the fetch of a position reads what the post of that position passed, and two claimed slots are never the same slot |
| `RingProtocol.StepKeepsInv` | src/swirly/app/MemQueue.hpp:158-212 | Every single load, swap and store of every thread keeps the slot invariant (free, claimed, published, draining) |
| `RingProtocol.RunKeepsInv` | src/swirly/app/MemQueue.hpp:158-212 | The invariant holds after any legal run |
| `RingProtocol.StepRefinesQueue` | src/swirly/app/MemQueue.hpp:158-212 | Each step is an enqueue on a queue that is not full, a dequeue of the head of a queue that is not empty, or leaves the abstract queue alone; a fetch reads what was the head when it claimed |
| `RingProtocol.RunExtends` | src/swirly/app/MemQueue.hpp:158-212 | What a run has recorded about claims and values is never altered by later steps |
| `RingProtocol.OwnersApart` | src/swirly/app/MemQueue.hpp:168-173 | Two threads between claim and store own different positions and different slots |
| `RingProtocol.OwnerAloneTouches` | src/swirly/app/MemQueue.hpp:198-202 | While a thread is between its claim and its store, no step of another thread changes its slot or reads the value there (others may load its sequence number) |
| `RingProtocol.PostRefusal` | src/swirly/app/MemQueue.hpp:188-212 | Post gives up if and only if its position is current and the position a lap behind is unfetched (queue full) or still being drained |
| `RingProtocol.FetchRefusal` | src/swirly/app/MemQueue.hpp:159-183 | Fetch gives up if and only if its position is current and the queue is empty or the value there is not stored yet |
| `RingProgress.PostFinishes` | src/swirly/app/MemQueue.hpp:188-212 | No thread waits for another: from any reachable moment, whatever the others are in the middle of, a post that has not claimed a slot is over after at most six steps of its own; it has posted its value if the slot of the next position was free and changed nothing otherwise |
| `RingProgress.FetchFinishes` | src/swirly/app/MemQueue.hpp:159-183 | The same for a fetch: it has taken the value at the next position if one was published there |
| `RingProtocol.StartIsGood` | src/swirly/app/MemQueue.hpp:63-77 | The in-memory constructor sets the queue up correctly if and only if it numbers every slot, that is, the requested capacity is itself a power of two |
| `RingProtocol.PartlyNumberedQueueJams` | src/swirly/app/MemQueue.hpp:63-77 | Otherwise the queue accepts at most `capacity` posts in its whole life, whatever is fetched in between |
| `RingReserve.FreeAheadMeaning` | src/swirly/app/MemQueue.hpp:127-137 | The next n slots are free exactly when `reserve() >= n` and no fetch of the positions they last held is between its swap and its store |
| `RingReserve.PromisedPostsSucceed` | src/swirly/app/MemQueue.hpp:127-212 | For a single producer that sees such a moment, no load of its next n posts is a refusal, whatever the fetches do afterwards |
| `RingReserve.BrokenPromise` | src/swirly/app/MemQueue.hpp:127-212 | Without the condition the promise is false: the producer, running alone, is refused before its n-th post |
| `RingReserve.ReserveIsConservative` | src/swirly/app/MemQueue.hpp:131-137 | Loading rpos before wpos never overstates the unused slots |
| `RingReserve.ReserveCanWrap` | src/swirly/app/MemQueue.hpp:127-137 | With a post between the two loads the difference can be -1, which the unsigned result turns into a huge reserve |
| `RingBatches.BatchBesideConsumers` | src/swirly/app/MemQueue.hpp:127-212 | One producer beside any consumers checks `reserve` and then begins at most n posts: whatever the consumers do, the posts that have returned have all posted their values, in order, and a batch is all or nothing |
| `RingBatches.DrainingIsReachable` | src/swirly/app/MemQueue.hpp:127-212 | In a queue of any size a run leads to a state in which `reserve` says one but a fetch is still draining that slot |
| `RingReserve.PostAlone` | src/swirly/app/MemQueue.hpp:188-212 | A post without interference runs to the end and appends its value |
| `RingReserve.FetchAlone` | src/swirly/app/MemQueue.hpp:159-183 | A fetch without interference runs to the end and takes the head |
| `RingReserve.QuietSlots` | src/swirly/app/MemQueue.hpp:158-212 | With all threads between calls, the two current slots tell exactly whether the queue is full and whether it is empty |
| `PowersOfTwo.NextPow2IsLeast` | src/swirly/util/Math.hpp:48-52 | The capacity is a power of two, not below the request, and the least such |
| `MemQueues.MemQueue.constructor` | src/swirly/app/MemQueue.hpp:63-77 | Slots of the next power of two, of which the first `capacity` are numbered; valid exactly when that is all of them |
| `MemQueues.MemQueue.Post` | src/swirly/app/MemQueue.hpp:188-212 | In place: succeeds exactly when not full, appends the value, and is the run of steps of the interleaved machine |
| `MemQueues.MemQueue.Fetch` | src/swirly/app/MemQueue.hpp:159-183 | In place: succeeds exactly when not empty, removes and returns the oldest value |
| `MemQueues.MemQueue.Unused` | src/swirly/app/MemQueue.hpp:127-137 | Capacity minus length |
| `MsgQueues.SplitThenRead` | src/swirly/fin/MsgQueue.cpp:32-42 | Reading every message up to its first zero gives the id list back, in order, if and only if no id is zero; otherwise ids are lost |
| `MsgQueues.SplitCount` | src/swirly/fin/MsgQueue.hpp:50-58 | The split takes exactly `steps()` messages, except that the empty list takes one |
| `MsgQueues.MessagesSay` | src/swirly/fin/MsgQueue.cpp:32-42 | Every message of a split carries the market, the time and its own 29 ids of the list, zeros behind the last |
| `MsgQueues.UpToZeroIs` | src/swirly/db/SqliteJourn.cpp:145-163 | What is read of a body is the longest part at its front without a zero |
| `MsgQueues.MsgQueue.DoArchiveTrade` | src/swirly/fin/MsgQueue.cpp:119-142 | Posts one message with the market, the time and a body of 29 in which the ids stand first and then zeros, or throws and leaves the queue alone |
| `MsgQueues.MsgQueue.ArchiveStep` | src/swirly/fin/MsgQueue.cpp:38-41 | One turn of the loop: what is posted and what is still to post stay the same sequence |
| `MsgQueues.MsgQueue.ArchiveTrades` | src/swirly/fin/MsgQueue.cpp:32-42 | All or nothing: message i of the split holds ids 29 i to 29 i + 28, padded with zeros, one message for an empty list; or the call throws and the queue is as it was; the loop ends |
| `MsgQueues.MsgQueue.CreateExecs` | src/swirly/fin/MsgQueue.cpp:109-117 | All or nothing for a batch of executions: the i-th new message is the i-th execution |
| `MsgQueues.Journal.OnArchiveTrade` | src/swirly/db/SqliteJourn.cpp:145-163 | Marks exactly the ids before the first zero, in order, and none behind it |
| `MemClasses.AllocFits` | src/swirly/app/MemCtx.cpp:56-90 | A 64-bit request has a class exactly when it is at most 2048 bytes, and then gets the shortest blocks that are long enough, or is one of the 63 greatest sizes, whose rounding up wraps, and then gets 64 bytes |
| `MemClasses.ReleasableExact` | src/swirly/app/MemCtx.cpp:91-122 | What alloc serves dealloc can take back exactly when the size is at most 2048; otherwise it aborts |
| `MemClasses.DeallocNeverGrows` | src/swirly/app/MemCtx.cpp:91-122 | Rounding the size down never picks a larger class than alloc served, and picks a smaller one exactly for a partial line past 1, 2, 3, 4, 8 or 16 whole ones |
| `PoolProtocol.EveryRunIsSafe` | src/swirly/app/MemPool.hpp:115-191 | Over every interleaving with fewer than 2^32 pushes per class and a limit below 2^32 - 2048: blocks are disjoint and inside the pool, a live one is long enough exactly when at most 2048 bytes were asked for, each chain in memory is its stack without repeats and holds exactly the free blocks of the class |
| `PoolProtocol.StepKeepsInv` | src/swirly/app/MemPool.hpp:115-174 | Every single load, store and swap keeps the pool invariant, with clients writing freely into what they hold |
| `PoolProtocol.PopSeesTop` | src/swirly/app/MemPool.hpp:136-155 | The tag defeats ABA: when the swap in pop is about to succeed, its link is the current top and the link it installs is the current next of that block |
| `PoolProtocol.WalkIsStack` | src/swirly/app/MemPool.hpp:115-155 | Following next fields in memory from any place of a stack meets the rest of the stack and then the end |
| `PoolProtocol.ChainHoldsFree` | src/swirly/app/MemPool.hpp:115-155 | The blocks on a chain are exactly the free blocks of its class, without repeats |
| `PoolProtocol.LinkParts` | src/swirly/app/MemPool.hpp:49-57 | Tag and offset can be read back from a link |
| `PoolProtocol.LinkHalves` | src/swirly/app/MemPool.hpp:49-57 | Offsets count in the lower half of a link and tags in the upper one, in steps of 2^32; only the null offset without a tag is the null link |
| `PoolProgress.AllocFinishes` | src/swirly/app/MemPool.hpp:136-185 | No thread waits for another: an allocation left alone is over after at most six steps of its own, with the top of its free list, a new block, or a refusal because the rest of the pool is too small |
| `PoolProgress.PushFinishes` | src/swirly/app/MemPool.hpp:115-133 | A release left alone is over after at most four: its block is the head of the chain and leads to the head that was |
| `PoolAlone.LimitTooLarge` | src/swirly/app/MemPool.hpp:157-174 | With a limit within 2048 bytes of 2^32 the 32-bit sum wraps: a run of one thread is handed a block that ends past the limit, and the bump offset is 0 again while the block there is live |
| `PoolAlone.LastTagLosesBlock` | src/swirly/app/MemPool.hpp:115-133 | The bound on pushes is needed: in a run of one thread the tag of the 2^32nd push is 0, the link of the block at offset 0 is then null, and the block is free but on no list |
| `PoolAlone.ReleasedBlockIsReused` | src/swirly/app/MemCtx.cpp:56-122 | Releasing a block and asking for its size again gives the same block and restores the pool, unless the release filed it under a smaller class |
| `PoolAlone.PushOutcome` | src/swirly/app/MemPool.hpp:187-191 | A release makes the block the head of its chain |
| `PoolAlone.PopRuns` | src/swirly/app/MemPool.hpp:136-155 | An allocation from a non-empty free list takes its top |
| `PoolAlone.CarveRuns` | src/swirly/app/MemPool.hpp:157-185 | An allocation from an empty free list carves a new block |
| `MemCtxs.MemCtx.Pop` | src/swirly/app/MemPool.hpp:136-155 | In place, under spurious failures: the head moves to the next field of the old top |
| `MemCtxs.MemCtx.Push` | src/swirly/app/MemPool.hpp:115-133 | In place: new tag, next field set to the old head, head set to the new link |
| `MemCtxs.MemCtx.Reserve` | src/swirly/app/MemPool.hpp:157-174 | In place: the bump offset moves on, in 32 bits, unless the limit is passed |
| `MemCtxs.MemCtx.Alloc` | src/swirly/app/MemCtx.cpp:56-90 | Fails exactly when the size has no class, or its list is empty and the rest of the pool too small; otherwise the block is new or was free |
| `MemCtxs.MemCtx.Dealloc` | src/swirly/app/MemCtx.cpp:91-122 | Aborts exactly for a size over 2048; otherwise the block becomes the top of the chain of the class its size is rounded down to, and nothing else moves |
| `BookSpec.InsertedKeeps` | src/swirly/fin/MarketSide.cpp:27-60 | After an insertion the levels agree with the list again: sorted by key then time, each level with the sum, the count and the earliest of its orders; the total grows by the lots |
| `BookSpec.WithdrawnKeeps` | src/swirly/fin/MarketSide.cpp:62-80 | The same after a removal; the total falls by the lots |
| `BookSpec.ReducedKeeps` | src/swirly/fin/MarketSide.cpp:82-94 | The same after a partial reduction |
| `BookSpec.NextFirstIsUpper` | src/swirly/fin/MarketSide.cpp:36-45 | In front of the next level's first order is exactly where price and time priority put the new order |
| `BookSpec.FollowerStays` | src/swirly/fin/MarketSide.cpp:70-74 | When the first of several orders of a level leaves, its follower in the list is of the same level |
| `BookSpec.LastLeavesNothing` | src/swirly/fin/MarketSide.cpp:66-69 | A level whose only order leaves has no lots left, as the code asserts |
| `BookSpec.LevelsFollowList` | src/swirly/fin/Level.cpp:27-50 | The level set is a function of the order list: keys, lots, counts and first orders; the lots of all levels add up to those of all orders |
| `BookSpec.RebuildGivesSameSide` | src/swirly/fin/MarketSide.cpp:27-60 | Inserting the listed orders, in list order, into an empty side rebuilds the same list and the same levels |
| `BookSpec.LevelLotsConserved` | src/swirly/fin/MarketSide.hpp:73-106 | A take or a revision lowers the total level lots by exactly what it takes off the order |
| `BookSpec.LevelIsContiguous` | src/swirly/fin/MarketSide.cpp:27-46 | The orders of a level are the `count` orders that start at its first |
| `BookSpec.UpperSplits` | src/swirly/fin/MarketSide.cpp:40-46 | The place of a new order has every order with a key not greater before it and every greater key behind it |
| `Book.OrderRun` | src/swirly/fin/Order.hpp:93-137 | Over every run of takes and revisions within the asserted bounds: residual plus executed lots are the lots, executed lots never fall, and the executed cost is executed lots times price |
| `Book.MarketSide.FindHint` | src/swirly/fin/Level.hpp:146-159 | The place of the level with a key, or where it belongs |
| `Book.MarketSide.InsertLevel` | src/swirly/fin/MarketSide.cpp:48-60 | The level set with the order counted in its level, found or made; the order points at it |
| `Book.MarketSide.PlaceOrder` | src/swirly/fin/MarketSide.cpp:36-45 | The list with the order behind all orders of its price |
| `Book.MarketSide.InsertOrder` | src/swirly/fin/MarketSide.cpp:27-46 | Keeps levels, list and back pointers in agreement; the new side is the inserted one; in the list the order stands behind every order of its price or a better one and in front of every worse one, prices compared as such |
| `Book.MarketSide.BehindItsPrice` | src/swirly/fin/MarketSide.cpp:36-45 | In prices: bids stand from high to low and offers from low to high, and a new order behind all of its own price |
| `Book.MarketSide.BestPriceFirst` | src/swirly/fin/Level.hpp:36-39 | Of two orders of one side in a book side the earlier one has the better price or the same: no lower for bids, no higher for offers |
| `Book.MarketSide.BestLevel` | src/swirly/fin/Level.hpp:36-39 | The first level is at the highest bid or the lowest offer of all listed orders |
| `Book.MarketSide.LeaveLevel` | src/swirly/fin/MarketSide.cpp:64-74 | The level set after an order leaves: the level goes, or moves on to the next order |
| `Book.MarketSide.RemoveListed` | src/swirly/fin/MarketSide.cpp:62-80 | Keeps the agreement; the order points at no level |
| `Book.MarketSide.ReduceLevel` | src/swirly/fin/MarketSide.cpp:82-94 | The level falls by delta, or the order leaves when delta is its whole residual |
| `Book.MarketSide.RemoveOrder` | src/swirly/fin/MarketSide.hpp:58-64 | Removes a listed order; an unlisted one changes nothing |
| `Book.MarketSide.CreateOrder` | src/swirly/fin/MarketSide.hpp:68-72 | A created order is in the side with all its lots |
| `Book.MarketSide.ReviseOrder` | src/swirly/fin/MarketSide.hpp:73-86 | Keeps the agreement; the side falls by the difference; the order stays listed exactly when something is left |
| `Book.MarketSide.CancelOrder` | src/swirly/fin/MarketSide.hpp:87-94 | Keeps the agreement; the order is out of the side |
| `Book.MarketSide.TakeOrder` | src/swirly/fin/MarketSide.hpp:99-106 | Keeps the agreement; the side falls by the taken lots; executed lots grow by them and the executed cost by them times the price; the order stays listed exactly when something is left |
| `Positions.NetCostStep` | src/swirly/fin/Posn.cpp:84-138 | One more trade: the signed cost since the position was last flat, with a trade through flat split into a closing and an opening part |
| `Positions.LastFlatMeaning` | src/swirly/fin/Posn.cpp:84-138 | Last flat is the latest moment at which the fills so far add up to nothing |
| `Positions.OneSideSinceFlat` | src/swirly/fin/Posn.cpp:84-138 | Since it was last flat the position has been on one side only, so the split is exact |
| `Positions.FlatCostsNothing` | src/swirly/fin/Posn.cpp:106-109 | No net lots, no net cost |
| `Positions.OnePrice` | src/swirly/fin/Posn.cpp:84-138 | When all prices are p the net cost is p times the net lots, as numbers |
| `Positions.Posn.AddBuy` | src/swirly/fin/Posn.cpp:84-110 | Net cost, lots and costs are those of the history with the buy added: lots times price on a flat position, that much more on a long one, and net lots times price when the buy takes the position through flat |
| `Positions.Posn.AddSell` | src/swirly/fin/Posn.cpp:112-138 | The same for a sell, with the sign turned |
| `Positions.Posn.AddTrade` | src/swirly/fin/Posn.hpp:101-109 | The same for either side |
| `FixText.FramedExact` | src/swirly/fix/Stream.cpp:43-101 | What is committed is the message with its true length and checksum if and only if the body is under 10000 bytes |
| `FixText.TrailerMeaning` | src/swirly/fix/Stream.cpp:26-40 | The checksum field is `10=`, three digits that together mean the sum, and the terminator |
| `FixText.CheckSumExact` | src/swirly/fix/Stream.cpp:43-93 | The number in the last field of a committed message is the byte sum, modulo 256, of everything before the field, if and only if the body is under 10000 bytes |
| `FixText.MessageLayout` | src/swirly/fix/Stream.cpp:43-101 | An encoded message, character by character: version, length in four or more decimal digits, body, checksum |
| `FixText.PatchedSum` | src/swirly/fix/Stream.cpp:51-60 | Adding the length's digit values makes up for patching the length after the sum was taken |
| `FixText.PatchFits` | src/swirly/fix/Stream.cpp:51-60 | With up to four digits the patch replaces the reserved zeros and nothing else |
| `FixText.DigitCount` | src/swirly/fix/Stream.cpp:51-60 | A number has at most k digits exactly when it is below 10^k |
| `FixPrinting.FixStream.Overflow` | src/swirly/fix/Stream.cpp:62-71 | Appends one character and keeps the 64-bit sum right modulo 256 |
| `FixPrinting.FixStream.Xsputn` | src/swirly/fix/Stream.cpp:73-83 | Appends a run of characters, whose signed values are summed with wrap-around |
| `FixPrinting.FixStream.Reset` | src/swirly/fix/Stream.cpp:95-101 | The header with four zeros for the length; committed data stays |
| `FixPrinting.FixStream.SetBodyLength` | src/swirly/fix/Stream.cpp:51-60 | The digits stand right-aligned before the place, and their values are in the sum |
| `FixPrinting.FixStream.PutCheckSum` | src/swirly/fix/Stream.cpp:26-40 | The text is followed by `10=`, three digits for the sum modulo 256, highest first, and the terminator |
| `FixPrinting.FixStream.Commit` | src/swirly/fix/Stream.cpp:43-93 | Appends exactly the framed message to the buffer, or the plain text and its checksum; the number in the three digits is the byte sum, modulo 256, of everything before `10=`, if and only if the body is under 10000 bytes or there is no header |
| `FixPrinting.Buffer.Prepare` | src/swirly/sys/Buffer.cpp:48-57 | Makes room and keeps what was committed and prepared |
| `FixParsing.ScanIsStable` | src/swirly/fix/Parser.hpp:85-117 | Bytes that arrive later never change a length that was read or a length that was bad |
| `FixParsing.LengthFieldExact` | src/swirly/fix/Parser.hpp:85-117 | The length is the number that the digits from byte 12 on mean: known exactly when a terminator follows them, bad when any other byte does |
| `FixParsing.DecodeInTwo` | src/swirly/fix/Parser.hpp:51-77 | Decoding a part and then the rest with what follows is decoding the whole |
| `FixParsing.CutsDoNotMatter` | src/swirly/fix/Parser.hpp:51-117 | For any bytes at all, cut in any way, what is handed over, the bytes consumed and how the loop ends depend on the stream only, lengths that wrap included |
| `FixParsing.ExactWhenLengthsFit` | src/swirly/fix/Parser.hpp:62-74 | The code delivers the messages that the bytes are, with lengths of any size, if and only if each length met makes a size below 2^64 or leaves, in 64 bits, more than there is |
| `FixParsing.HugeLength` | src/swirly/fix/Parser.hpp:62-74 | For every length from 2^64 - 40 to 2^64 - 7 behind a header: no such message can be there, but the code hands over a body past the buffer or never ends |
| `FixParsing.HugeLengthInput` | src/swirly/fix/Parser.hpp:62-74 | For 18446744073709551600 it moves on by 24 bytes |
| `FixParsing.DecodeUndoesEncode` | src/swirly/fix/Parser.hpp:51-77 | Every encoded sequence of messages, each shorter than 2^64 bytes, is delivered as it was and consumed to the last byte |
| `FixParsing.RoundTrip` | src/swirly/fix/Parser.hpp:51-117 | Printed messages, presented in any pieces, are delivered as the same versions and bodies, and exactly the bytes written are consumed |
| `FixParsing.RoundTripExact` | src/swirly/fix/Parser.hpp:51-117 | One committed message comes back whole if and only if its body is under 10000 bytes |
| `FixParsing.LongBodyMisread` | src/swirly/fix/Parser.hpp:98-116 | For a longer body the parser reads the last four digits of the length |
| `FixParsing.FixParser.ParseBodyLen` | src/swirly/fix/Parser.hpp:85-117 | In place, in 64 bits: remembers the offset and the length exactly when they can be read |
| `FixParsing.FixParser.Parse` | src/swirly/fix/Parser.hpp:51-77 | Delivers exactly the messages that the 64-bit sizes find at the front and returns the bytes they take, or says that the loop never ends; what it remembers fits the rest |
| `FixParsing.PresentAll` | src/swirly/fix/Parser.hpp:51-77 | A caller that presents what is left over together with the next piece: over any pieces, the messages and the rest are those of the whole stream |
| `FixParsing.PresentMessages` | src/swirly/fix/Parser.hpp:51-77 | Committed messages in any pieces come out of the parser object as they went in, with nothing left over |
| `FixTokens.SearchIsLookup` | src/swirly/fix/Tokeniser.cpp:27-67 | On canonical fields the search returns the value of the first field with the tag, or nothing; the last terminator may be missing |
| `FixTokens.SearchExact` | src/swirly/fix/Tokeniser.cpp:27-67 | On any message whatever: the value behind the first equals sign if the tag is what stands before it, else the value behind the first later terminator, tag and equals sign; nothing if there is none |
| `FixTokens.SearchAgreesWithTokens` | src/swirly/fix/Tokeniser.cpp:27-106 | The search agrees with reading all the fields |
| `FixTokens.TokensOfRendered` | src/swirly/fix/Tokeniser.cpp:69-106 | Printing fields and reading them back gives the same pairs |
| `FixTokens.NextFieldExact` | src/swirly/fix/Tokeniser.cpp:69-106 | On any text: a field is there exactly when digits and then an equals sign are; its tag is what the digits mean, and its value ends at the first terminator or with the text |
| `FixTokens.ShownValue` | src/swirly/fix/Field.hpp:119-128 | A number is printed in decimal, behind a minus sign when negative |
| `FixTokens.OpeningsApart` | src/swirly/fix/Tokeniser.cpp:51-52 | A tag and its equals sign are the start of no other tag |
| `FixTokens.FixTokeniser.Tag` | src/swirly/fix/Tokeniser.cpp:69-93 | Reads the decimal tag and moves behind the equals sign; fails exactly when the tag does not end in one |
| `FixTokens.TagInRange` | src/swirly/fix/Tokeniser.cpp:71-85 | No product or sum on the way overflows an int exactly when the whole tag fits one |
| `FixTokens.FixTokeniser.NextValue` | src/swirly/fix/Tokeniser.cpp:95-106 | The value up to its terminator or the end; the iterator moves behind it |
| `FixTokens.FixTokeniser.NextPair` | src/swirly/fix/Tokeniser.hpp:46 | The next field |
| `FixTokens.FindTag` | src/swirly/fix/Tokeniser.cpp:27-67 | Computes the search with the tag formatted backwards in an array of twelve, for tags below 10^9 |
| `FixTokens.FormatTag` | src/swirly/fix/Tokeniser.cpp:40-48 | The array ends in the tag and an equals sign, and there is room for one more byte |
| `FixTokens.PrintField` | src/swirly/fix/Field.hpp:119-128 | Appends tag, equals sign, value and terminator |
| `FixTokens.PrintFields` | src/swirly/fix/Field.hpp:119-128 | Appends the fields one after another, numbers in decimal |
| `FixTokens.PrintMessage` | src/swirly/fix/Stream.cpp:43-101 | A message from header to checksum: exactly the framed message with these fields is appended to the buffer |
| `FixTokens.ReadableIsCanonical` | src/swirly/fix/Field.hpp:119-128 | A printed field can be read back exactly when its tag is below 10^9 and its value, if it is a text, has no terminator in it |
| `FixTokens.FieldsSurvive` | src/swirly/fix/Field.hpp:119-128 | Fields printed into a message, sent in any pieces, framed and tokenised are the same fields |
| `FixTokens.WrittenFieldsSurvive` | src/swirly/fix/Field.hpp:119-128 | The same from values: numbers come back as their digits, texts as they are |
| `HttpLengths.OneMoreExact` | src/swirly/contrib/http_parser.c:1507-1518 | A digit is taken exactly when the value it makes is within the greatest; then nothing wraps and the value is never the one that means unset |
| `HttpLengths.ReadContentLength` | src/swirly/contrib/http_parser.c:1396-1409 | Accepts a value exactly when it is a digit followed by digits and spaces and its decimal value, of any length, is at most 18446744073709551609; the result is that value |
| `HttpLengths.HexReadExact` | src/swirly/contrib/http_parser.c:1872-1923 | A run of what the table takes for digits is read exactly when its value is at most 2^64 - 17, and then as its value |
| `HttpLengths.TableExact` | src/swirly/contrib/http_parser.c:220-229 | What the table makes of a text is its hexadecimal value exactly when no byte of it is 0x80 or more |
| `HttpLengths.HexTextRead` | src/swirly/contrib/http_parser.c:220-229 | A number written in hexadecimal reads as that number |
| `HttpDigits.DecimalTextRead` | src/swirly/contrib/http_parser.c:1396-1409 | A number written in decimal reads as that number, whatever stands behind it that is not a digit |
| `HttpMethods.AcceptsExactly` | src/swirly/contrib/http_parser.c:916-1010 | The matcher accepts exactly the strings of the method table |
| `HttpMethods.AcceptedWords` | src/swirly/contrib/http_parser.c:916-1010 | The 34 words that are accepted and the method each stands for, written out |
| `HttpMethods.BlankLinesAreSkipped` | src/swirly/contrib/http_parser.c:916-919 | Line ends in front of a request change nothing |
| `HttpMethods.ReadSoFar` | src/swirly/contrib/http_parser.c:959-1006 | What was read is the first `index` characters of the current method's name, and the index never passes the name's end |
| `HttpMethods.SwitchFits` | src/swirly/contrib/http_parser.c:974-1001 | Every switch is to a method that agrees with what was read |
| `HttpMethods.RequestReader.Execute` | src/swirly/contrib/http_parser.c:916-1010 | In place, over any buffer: the matcher's state is that of all bytes read, and no byte is read once the method is known or cannot be one |
| `HttpBodies.BodyOfChunks` | src/swirly/contrib/http_parser.c:1953-1990 | The body reported for chunks is their data put together |
| `HttpBodies.ContentLengthBody` | src/swirly/contrib/http_parser.c:1820-1854 | A body with a length of N is N bytes of body and then message complete |
| `HttpBodies.NoBody` | src/swirly/contrib/http_parser.c:1774-1816 | A message whose length is zero, or unknown when it does not last to the end of the input, is complete with its headers: the parser waits for the next one, or for the end of the connection |
| `HttpBodies.BodyToTheEnd` | src/swirly/contrib/http_parser.c:1806-1812 | A message of unknown length that lasts to the end of the input: all bytes that follow are body |
| `HttpBodies.ChunkedWithLength` | src/swirly/contrib/http_parser.c:1705-1723 | A message that is chunked and has a length fails, with nothing reported |
| `HttpBodies.FramingIsStrict` | src/swirly/contrib/http_parser.c:1872-1990 | Byte by byte: where a line must end or a size begin, which bytes will do, and which error any other is |
| `HttpBodies.HeadersAreBounded` | src/swirly/contrib/http_parser.c:150-157 | The 81921st byte in a row outside bodies fails, whatever it is |
| `HttpBodies.SizeLineRead` | src/swirly/contrib/http_parser.c:1872-1951 | A well-formed size line, extensions included, is read as the value of its digits |
| `HttpBodies.SizeLineExact` | src/swirly/contrib/http_parser.c:1872-1951 | Any line without a carriage return, and then a line end: accepted exactly when something stands before the extensions, all of it in the table, of a value of at most 2^64 - 17, and the line fits the header limit; otherwise the parser fails |
| `HttpBodies.LengthIsHexadecimal` | src/swirly/contrib/http_parser.c:1872-1923 | The length of an accepted size line is what stands there in hexadecimal exactly when no byte before the extensions is 0x80 or more |
| `HttpBodies.HighByteLines` | src/swirly/contrib/http_parser.c:1872-1951 | A line of the one byte 0x80 is the last chunk, and the digit 1 with that byte behind it is a chunk of 16 bytes |
| `HttpBodies.ChunkedRun` | src/swirly/contrib/http_parser.c:1872-1990 | The bytes of a well-formed chunked body are reported chunk by chunk in order, and then the message is complete |
| `HttpParsing.StepIsSound` | src/swirly/contrib/http_parser.c:1820-1990 | No byte leads to a state in which one of the code's assertions fails |
| `HttpParsing.SpansAreBody` | src/swirly/contrib/http_parser.c:1953-1982 | The reported spans put together are the body bytes |
| `HttpParsing.HttpParser.Execute` | src/swirly/contrib/http_parser.c:630-2029 | Bulk reading refines the byte-by-byte machine on any buffer: same state, same reports with spans taken apart; on failure it stops at the first failing byte and has reported nothing that the machine does not |
| `HttpParsing.ExecuteAll` | src/swirly/contrib/http_parser.c:630-2029 | One call after another over any non-empty buffers: state and reports are those of all the bytes put together, wherever the cuts are |
| `HttpParsing.ExecuteChunked` | src/swirly/contrib/http_parser.c:1872-1990 | A chunked body in any buffers: events chunk by chunk, and the spans handed over are the data of all chunks |
| `HttpParsing.ExecuteLength` | src/swirly/contrib/http_parser.c:1820-1854 | A body with a Content-Length of N in any buffers: the spans handed over are exactly its N bytes, then the message is complete |
| `HttpParsing.ExecuteNoBody` | src/swirly/contrib/http_parser.c:1774-1816 | One line feed ends a message without a body: headers complete and message complete are reported, and the parser waits for the next message exactly when the connection is kept |
| `HttpParsing.ExecuteToEof` | src/swirly/contrib/http_parser.c:630-680 | A body up to the end of the input, in any buffers and then an empty one: all of it is handed over, and then the message is complete |
| `HttpParsing.ExecuteConflict` | src/swirly/contrib/http_parser.c:1705-1723 | A chunked message with a length is refused at the end of its headers |
| `HttpParsing.HttpParser.ReadDue` | src/swirly/contrib/http_parser.c:1953-1974 | Reads what is due or what is there |
| `HttpParsing.HttpParser.EndSpan` | src/swirly/contrib/http_parser.c:1976-1982 | The span ends at the carriage return behind the data |
| `HttpUrls.CharClasses` | src/swirly/contrib/http_parser.c:239-275 | Which characters a path, a user name, a zone, a host and a name or number may hold, one class inside the other, with the characters that make the difference listed |
| `HttpUrls.ParsedIsWellSplit` | src/swirly/contrib/http_parser.c:2281-2397 | On success every set field is non-empty and inside the buffer, the fields are in order and disjoint with their delimiters around them, the port is the value of its digits and at most 65535, and a CONNECT target is a host and a port |
| `HttpUrls.StaysOrderly` | src/swirly/contrib/http_parser.c:2293-2349 | Each byte keeps the fields of the first pass non-empty, in order and inside what was read |
| `HttpUrls.HostIsRead` | src/swirly/contrib/http_parser.c:2194-2273 | User, host and port of the server part come in this order, each with its delimiter |
| `HttpUrls.UrlParts.ScanFields` | src/swirly/contrib/http_parser.c:2289-2349 | The first pass in place; fails exactly when the state machine dies |
| `HttpUrls.UrlParts.ParseHost` | src/swirly/contrib/http_parser.c:2193-2273 | The second pass in place; fails exactly when the server part is malformed or unfinished |
| `HttpUrls.UrlParts.ReadPort` | src/swirly/contrib/http_parser.c:2369-2393 | The decimal value of the digits, refused exactly when over 65535 |
| `HttpUrls.UrlParts.ParseUrl` | src/swirly/contrib/http_parser.c:2280-2397 | Fails exactly when the specification finds no URL, and otherwise sets exactly its fields and port; the two rows on assembled texts say which texts these are |
| `HttpUrlParts.SplitUndoesAssembly` | src/swirly/contrib/http_parser.c:2280-2397 | A URL assembled from well-formed parts, hosts in brackets and zones, empty users and queries and repeated hashes included, is accepted unless its port is over 65535 or it is a CONNECT target with more or less than host and port; every part is found where it was put, missing parts are not found, and the port is the number written |
| `HttpUrlTexts.AcceptedIsAssembled` | src/swirly/contrib/http_parser.c:2280-2397 | Every text that is accepted is assembled from well-formed parts, and the fields are where these are. With the row above: exactly the assembled texts are accepted |
| `HttpUrlParts.OriginForm` | src/swirly/contrib/http_parser.c:485-640 | The target of an ordinary request, `/path` or `*` with a query and a fragment or without, is accepted with exactly these places and port 0 |
| `HttpUrlParts.ConnectForm` | src/swirly/contrib/http_parser.c:2280-2397 | A CONNECT target `host:port` is accepted with exactly these two places and the port that was written, up to 65535 |
| `HttpUrlParts.ConnectExact` | src/swirly/contrib/http_parser.c:2360-2397 | Of the texts that begin with a server part, CONNECT accepts exactly those with a host, a port up to 65535 and nothing else |

## Left out

- Weak memory ordering: threads interleave over one sequentially consistent memory.
- Wrap-around of the queue's 64-bit positions, and of lots, costs and ticks, which are unbounded integers here.
- Mapping, files and moving of queues and pools.
- PowersOfTwo.NextPow2IsLeast: not for arguments above 2^30, from which on the source shifts an `int` out of its range.
- MemClasses.AllocFits: sizes above 2^36 bytes and below the 63 greatest, for which the same shift is undefined, are taken to have no class.
- PoolProtocol.EveryRunIsSafe: a client that writes as much as it asked for into a block handed out for one of the 63 greatest sizes; client writes stay inside the block here.
- Boost's intrusive containers and reference counts: the order list and the level set are sequences, the set sorted by key; allocation failure is not modelled there.
- Orders of two sides in one book side: the key is computed from each order's own side, as in the source, but nothing is said about mixing them.
- MemCtxs.MemCtx.Dealloc: one thread without interference; what several threads do is stated by PoolProtocol.EveryRunIsSafe.
- MsgQueues.MsgQueue.ArchiveTrades: nobody else uses the queue during the call; beside consumers the same all or nothing is RingBatches.BatchBesideConsumers, on the interleaved machine.
- MsgQueues.MsgQueue.CreateExecs: an execution is an opaque value, its copying field by field is not modelled.
- The cost-based `add_buy` and `add_sell` of a position and its constructor from totals: they set the net cost to buy minus sell and do not keep a flat position at zero.
- FixParsing.FixParser.Parse: the assertion of `FixVersion` that both numbers are digits is not modelled, so bytes that are not digits give the numbers that a release build gives; printed messages meet the assertion. Also not modelled: what the caller loses when the exception is thrown, and `isdigit` of a negative character, which is taken to be false.
- FixParsing.ExactWhenLengthsFit: buffers of 2^64 bytes and more.
- FixPrinting.FixStream.Commit: bodies of 10^16 bytes or more, whose length would run over what stands before the message; a buffer that is consumed while a message is being written.
- FixTokens.FindTag: tags of 10^9 and more, for which the format array has no room.
- FixTokens.FixTokeniser.Tag: an unbounded number; FixTokens.TagInRange says when the source's `int` does not overflow, and overflow is undefined there.
- Floating-point and time values of FIX fields.
- HTTP header fields, trailer fields, responses' status lines, upgrades, keep-alive detection, and callbacks that fail or pause; a next message or a trailer field is where the body machine stops.
- HttpUrls.UrlParts.ParseUrl: buffers over 65535 bytes, whose offsets do not fit the result.
- The matching engine, sessions, REST routing, JSON and DSV output, SQL binding, the user interface, start-up and logging.
