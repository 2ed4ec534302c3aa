# Verified models of uWSGI's cache, legion, chunked input and async hub

This project models four stateful parts of uWSGI in Dafny and proves what they keep over every run.

* **The shared-memory cache** (`core/cache.c`). A fixed pool of slots is threaded by hash-bucket chains, a free-slot
  stack, an LRU list and a byte-packed block bitmap. `Cache.Store` updates these tables step by step as the C code
  does. Each operation is proved to keep all of them in agreement (`CacheSteps.Inv`) and to answer what a finite map
  from keys to (value, expiry, flags) answers (`CacheModel`). The alarm for a looping chain is proved unreachable.
* **The legion election** (`core/legion.c`). `Legion.Member` is one instance; `LegionProtocol` is the step system of
  many instances that announce, deliver and check. A majority quorum never lets two members win at once on current
  votes, and a fixed legion converges to exactly one Lord, the member with the greatest (valor, uuid).
* **The chunked-body decoder** (`core/chunked.c`) over the growable buffer (`core/buffer.c`). For every well-formed
  stream (section 7.1 of RFC 9112, without chunk extensions) and every way of cutting it into reads, what the reader
  hands out are the chunks of the stream, whole, in order and once each. It stops only for lack of data, provided that
  its buffer has no limit or that every size line and every chunk leaves a page below the limit; otherwise there is a
  way of cutting the stream that it never gets through. Good chunks with a bad line behind them come out whole and then
  fail for good, and on any stream whatever the end is reported only behind a complete size line of value 0.
* **The async hub** (`core/async.c`): timers, wait lists, the descriptor table and the linked run queue. Exactly three
  events wake a waiting request, and one that sleeps is woken exactly when a clock reaches its deadline.

## How it is organised

| file | content |
|---|---|
| `Bytes`, `Wrappers`, `Collections`, `SlotLists` | bytes; optional values; sequences without repeats; doubly linked lists threaded through slot numbers |
| `Bitmap` | mask and shift code on `bv8` bytes, the free-run search |
| `CacheModel` | the abstract map that a cache must agree with |
| `CacheSlots`, `CacheSteps` | the invariant of the tables, and the steps taken on them |
| `CacheBlocks` | where values are put, as a function of the operations |
| `Cache`, `CacheTheorems` | the class, operation by operation; what follows for its users over whole runs |
| `CacheLaws` | what each operation answers and leaves, in terms of the old entries and the arguments only |
| `LegionModel`, `LegionProtocol`, `Legion`, `LegionNodes` | one instance, many instances, the loops in place, scrolls and node list |
| `LegionConvergence`, `LegionSchedule`, `LegionTwoLords` | the convergence theorem; a schedule it applies to; a run with two Lords |
| `Buffer`, `ChunkWire`, `Chunked` | the buffer, the wire format, the decoder |
| `RunQueue`, `HubModel`, `HubRuns`, `HubMirror`, `Async` | the linked queue, the hub as a value, its runs, runs with one waiter per descriptor, the class |
| `HubLaws` | what each operation leaves, request by request; when a request is woken |

A method that changes state is specified by a function of the old state (`ensures M() == ...`, `ensures S() == ...`,
`ensures V() == ...`); the theorems are about those functions and about every sequence of them.

## Where the code does not do what one might expect

Each point names an input at which the expectation fails and a theorem that says exactly when it holds.

* `core/legion.c:9-12` says that there is only one Lord at a time. A Lord that merely sees disagreement is not demoted
  (`votes == 0`). `LegionTwoLords.TwoLordsAtOnce` is a run from three fresh instances to two Lords;
  `LegionProtocol.OneLordKeptIff` and `LegionProtocol.OneLordThroughoutIff` say that an event, or a run, keeps to one
  Lord exactly if nobody wins its check while another member is Lord. `LegionProtocol.AtMostOneWinner` and
  `LegionConvergence.OneLord` are what majorities and convergence add.
* The free-run search misses a run that straddles the byte-aligned hint: `Bitmap.StraddlingRunIsMissed`, and
  `Bitmap.SearchSucceedsIff` for exactly which runs it sees.
* An absolute expiry does not pull the next scan forward, and sweep_on_full puts it off:
  `CacheTheorems.AbsoluteExpiryIsMissed` and `CacheTheorems.SweepOnFullIsLate`; exactly when the sweeper is still in
  time: `CacheTheorems.AbsoluteExpiryInTimeIff` and `CacheTheorems.SweepOnFullInTimeIff`.
* With purge_lru an expiry is stored as it was given, not counted from now: `CacheTheorems.LruExpiryIsLongGone`,
  `CacheTheorems.RelativeExpiryIff`; with lazy expiry on top such an item is never read
  (`CacheTheorems.LruExpiryIsThePast`).
* A set that fails may have changed the cache: `CacheTheorems.FailedUpdateLosesTheKey`, and
  `CacheTheorems.FailedSetIsAtomicIff` for exactly when it has not.
* Recovery from a store rebuilds no bitmap; the recovered cache is valid if and only if it is empty or uses none
  (`CacheTheorems.RecoveredBitmapForgets`, `CacheSteps.PaddingIsRightIff`, `Cache.Store.Fix`).
* With a limit on its buffer (1 MB by default, `core/init.c:197`) the chunk reader refuses to receive as soon as less
  than a page of room is left: `Chunked.SixBytesOfEight`; `Chunked.ChunkReader.Read` and `Chunked.DripFails` are the
  two halves of the exact condition.
* A size line that is no number ends the body, and an empty one takes its size from the line behind it:
  `ChunkWire.NoNumberReadsAsTheEnd`, `ChunkWire.EmptyLineReadsTheNext`. Only a byte that is no letter or digit makes a
  line bad (`ChunkWire.ScanIs`), and `uwsgi_chunked_read_smart` gives what it has then, as at the end
  (`Chunked.BodyReader.ReadEverything`).
* A node is added with 16 bits of its valor and looked up with all of them: `LegionProtocol.ListedOnceIff` says that
  hearing somebody twice lists it once if and only if its valor is below 65536.
* An insertion into a buffer below its limit is let through although the result does not fit:
  `Buffers.InsertionMayOverrun`, and `Buffers.Buffer.Insert` for exactly when.
* Two requests that wait on one descriptor: the second registration takes it over, and the first request is left
  without a waker once the event arrives: `HubRuns.SharedDescriptorAtAnInput`, `HubModel.AddFdKeepsMirrorIff`,
  `HubRuns.SharedDescriptorStrands`, `HubRuns.StrandedForever`.
* A chunk header is printed from the length modulo 2^32: `ChunkWire.FourGigabytesReadAsTheEnd`,
  `ChunkWire.PrintedChunkIsGoodIff`.

## Model

| member | source | states |
|---|---|---|
| Bitmap.MarkBlocks | core/cache.c:148-182 | the bits of exactly the ceil(len/blocksize) blocks from index are set, every other bit is as before, and the count is returned |
| Bitmap.UnmarkBlocks | core/cache.c:184-218 | exactly those bits are cleared, every other bit is as before |
| Bitmap.PaintBlocks | core/cache.c:152-180 | first-byte mask, memset of the middle and last-byte mask together change exactly the range, for every alignment |
| Bitmap.UnmarkUndoesMark | core/cache.c:148-218 | unmark after mark on a clear range gives back the same bytes |
| Bitmap.NeededBlocksIsCeiling | core/cache.c:149-150 | the block count is the quotient rounded up |
| Bitmap.ByteIsItsBits | core/cache.c:162-174 | two bytes with the same eight bits are equal, which lifts bit statements to bytes |
| Bitmap.ScanByte | core/cache.c:96-129 | scanning one byte extends the current free run, restarts it, or returns the first run that is long enough |
| Bitmap.FindFreeBlocks | core/cache.c:70-146 | the scan with moving mask, partial first byte and wrap computes the reference search: first fit from the hint, then first fit up to the end of the hint's byte |
| Bitmap.SearchSucceedsIff | core/cache.c:70-146 | a run is found if and only if one lies wholly at or after the hint, or wholly before the end of the hint's byte; it is clear and inside; complete for hint 0 |
| Bitmap.SearchIsFirstFit | core/cache.c:70-146 | which run is taken: the lowest at or after the hint, and only if there is none the lowest that ends in the bytes up to the hint's |
| Bitmap.StraddlingRunIsMissed | core/cache.c:132-140 | a map whose only long enough run crosses the hint, and the search fails |
| SlotLists.UnlinkKeeps | core/cache.c:673-686 | joining the neighbours of a cell leaves exactly the list without it, linked both ways |
| SlotLists.AppendKeeps | core/cache.c:871-879 | linking a cell behind the last one leaves exactly the list with it at the end |
| SlotLists.QueueAfterRemove | core/cache.c:536-551 | removal from the list with head and tail, including the ends |
| SlotLists.QueueAfterAppend | core/cache.c:553-566 | insertion at the tail |
| CacheSlots.BucketsAfterRemove | core/cache.c:673-691 | taking a slot out of its chain keeps the chains a partition of the live slots by hash modulo hashsize |
| CacheSlots.BucketsAfterAppend | core/cache.c:860-879 | so does putting a slot at the end of its chain |
| CacheSlots.StackAfterPush | core/cache.c:669-671 | freeing a slot keeps the stack exactly the free slots, without repeats |
| CacheSlots.StackAfterPop | core/cache.c:790-791 | so does taking the top of the stack |
| CacheSlots.BitsAfterFree | core/cache.c:667-668 | after unmarking, the set bits are again exactly the blocks of live values and the padding |
| CacheSlots.BitsAfterClaim | core/cache.c:797-813 | the same after marking the blocks of a new value; a clear run overlaps no live value |
| CacheSlots.BitsAfterMove | core/cache.c:897-917 | the same after a relocation that marks the new blocks before it unmarks the old ones |
| CacheSlots.OtherBytes | core/cache.c:828-830 | writing the bytes of one value changes no byte of another live value |
| CacheSlots.ContentsAfterStore | core/cache.c:822-858 | storing a record and its bytes changes exactly one entry of the represented map |
| CacheSteps.FreeSlotKeeps | core/cache.c:656-718 | deleting a live slot keeps the whole invariant and deletes exactly its key from the abstract map and recency order |
| CacheSteps.TouchSlotKeeps | core/cache.c:577-580 | a touch keeps the invariant and moves the key to the end of the recency order |
| CacheSteps.StoreNewKeeps | core/cache.c:790-881 | storing a new key keeps the invariant and adds exactly that entry, most recently touched |
| CacheSteps.ExpiryKeeps | core/cache.c:885-896 | a new expiry changes only that expiry |
| CacheSteps.RewriteKeeps | core/cache.c:897-942 | new bytes, relocated or in place, change only that value |
| CacheSteps.ChainFacts | core/cache.c:475-529 | a chain starts at its table entry, is linked, holds live slots of its bucket and is shorter than the pool |
| CacheSteps.NotOnChain | core/cache.c:475-529 | a key that no slot of its chain carries is not in the cache |
| CacheSteps.InitialInv | core/cache.c:347-368 | the initial tables satisfy the invariant for the empty map |
| CacheSteps.RoomIsSeen | core/cache.c:27-68 | freeing slots never hides a free run from the search |
| CacheSteps.EarlyOutIsSafe | core/cache.c:1115-1122 | when the next scan is no later than any expiry, the early exit of the sweeper skips no expired slot |
| CacheSteps.NothingExpired | core/cache.c:1125-1144 | when no slot is expired, what is left of the map are exactly its unexpired entries |
| CacheSteps.InterleavedMore | core/cache.c:1126-1144 | one more section and the operations after it extend the interleaved run, and its deletion is counted |
| CacheSteps.PassGoesOn | core/cache.c:1126-1144 | what a pass has done up to slot i, disturbed or not, is carried on to slot i + 1 |
| CacheSteps.AllVisited | core/cache.c:2140-2160 | the bucket order lists every live slot exactly once |
| CacheSteps.RecoveredInv | core/cache.c:720-758 | the rebuilt table, stack and LRU ends satisfy the invariant for the same chains, LRU list and entries |
| CacheSteps.PaddingIsRightIff | core/cache.c:359-368 | a new bitmap fits recovered tables if and only if they hold nothing |
| CacheBlocks.BitsAreMapOf | core/cache.c:360-368 | the bitmap is the function of the entries and their places that marks exactly their blocks and the padding |
| CacheBlocks.CoveredIffTaken | core/cache.c:148-182 | a block belongs to an entry if and only if a live record covers it |
| CacheBlocks.ProbeIs | core/cache.c:798-798 | the search on the stored bitmap is the search on that function |
| CacheBlocks.FreedBlocks | core/cache.c:664-706 | freeing slots removes their places and moves nothing |
| CacheBlocks.StoredBlocks | core/cache.c:793-813 | storing a value changes the place of its key only |
| Cache.Store.constructor | core/cache.c:347-368 | a new cache is valid and represents the empty map; the padding bits of the last byte are set |
| Cache.Store.LruRemoveItem | core/cache.c:536-551 | the in-place code takes exactly the removal step |
| Cache.Store.LruAddItem | core/cache.c:553-566 | the in-place code takes exactly the insertion step |
| Cache.Store.BucketRemove | core/cache.c:673-691 | the in-place code takes exactly the unlink step |
| Cache.Store.FindSlot | core/cache.c:475-529 | the chain walk finds the slot of the key if and only if the key is in the map; the wrong-bucket and loop alarms are unreachable |
| Cache.Store.GetIndex | core/cache.c:464-529 | look-up with lazy expiry: an expired entry is deleted first, nothing else changes |
| Cache.Store.DelSlot | core/cache.c:656-718 | deletion by slot number deletes exactly that key and frees its blocks; a free slot is left alone |
| Cache.Store.Del2 | core/cache.c:656-718 | true exactly if the key was there and not lazily expired; the key is gone, every other entry and the rest of the recency order stay; agrees with the abstract map |
| Cache.Store.Get2 | core/cache.c:568-632 | gives exactly the bytes, expiry and flags of the old entry if there is one that is neither ungettable nor lazily expired; all other entries stay, what is given becomes the last in the recency order, and otherwise nothing moves |
| Cache.Store.SweepExpired | core/cache.c:44-57 | exactly the expired entries go, and their number is returned |
| Cache.Store.ClearAll | core/cache.c:63-67 | every entry goes |
| Cache.Store.CacheFull | core/cache.c:27-68 | exactly which entries stay when room is made, in terms of LRU order, sweep and clear, and the next scan; records are only freed, never changed |
| Cache.Store.Claim | core/cache.c:798-812 | fails if and only if the search fails; otherwise marks exactly the run that the search gives and keeps the hint inside the blocks |
| Cache.Store.ChainEnd | core/cache.c:866-876 | the walk ends at the last slot of the chain |
| Cache.Store.InsertNew | core/cache.c:783-882 | a new key: eviction, placement and error results agree with the abstract Insert; in bitmap mode the block is the one that the reference search gives on the map left after making room, and failure is its failure |
| Cache.Store.Rewrite | core/cache.c:897-943 | an update changes only that value; it fails if and only if in bitmap mode the search fails, and then changes nothing; otherwise the value moves to the block found |
| Cache.Store.UpdateSlot | core/cache.c:883-944 | an update agrees with the abstract Update, a failed relocation included, and with the allocator function |
| Cache.Store.Set2 | core/cache.c:760-958 | a live key without the update flag is refused and nothing changes; exactly when a set succeeds, the whole entry it leaves, and that every other entry stays unless a full cache makes room; every result agrees with the abstract Set, and where values lie afterwards is a function of where they lay before |
| Cache.Store.Execute | core/cache.c:475-958 | every sequence of sets, gets and deletes keeps the invariant and gives the outputs of the abstract run, with the placements of the allocator function, so that all answers are determined by the operations; the next scan stays in time |
| Cache.Store.SweepSlot | core/cache.c:1126-1144 | one critical section deletes the slot exactly if it is expired, and accounts for it in the next scan |
| Cache.Store.SweeperPass | core/cache.c:1111-1147 | whatever other processes do after the early-exit reading and between the critical sections, each with its own clock, sections and operations are one run of the abstract cache in which a section deletes exactly the entry it finds expired, the result counts those deletions, and the next scan is no later than any expiry afterwards; an undisturbed pass frees exactly the slots expired at their reading, and an early exit skips nothing |
| Cache.Store.Keys | core/cache.c:2140-2160 | one call gives the next slot in bucket order and the cursor behind it, or nothing at the end |
| Cache.Store.VisitAll | core/cache.c:2140-2160 | repeated calls visit every live slot exactly once, then stop |
| Cache.Store.Fix | core/cache.c:720-758 | from the item array alone, with table and LRU ends zeroed, the same abstract map and LRU order, a correct stack and count, and the least expiry; valid if and only if there is no bitmap or nothing was stored |
| CacheTheorems.MakeRoomShrinks | core/cache.c:27-68 | making room removes entries and changes none |
| CacheTheorems.SetIsLocal | core/cache.c:760-958 | whatever set2 evicts or moves, another key that survives keeps its bytes, expiry and flags |
| CacheTheorems.ReadYourWrite | core/cache.c:568-958 | a successful set is read back, unless ungettable or lazily expired by then |
| CacheTheorems.FullCacheEvictsOldest | core/cache.c:40-41 | a new key in a full LRU cache succeeds, once it is placed, and evicts exactly the least recently touched key |
| CacheTheorems.RecencyIsLastTouchOrder | core/cache.c:536-588 | after every run the LRU order lists each key once, sorted by the position of its last touch in the history |
| CacheTheorems.AbsoluteExpiryInTimeIff | core/cache.c:816-822 | after any set with an absolute expiry, successful or not, the next scan is in time if and only if the set left no new expiry in the cache or a scan was due by then anyway |
| CacheTheorems.SweepOnFullInTimeIff | core/cache.c:44-61 | sweep_on_full keeps the next scan in time if and only if nothing that is left expires before it, or clear_on_full then empties the cache |
| CacheTheorems.AbsoluteExpiryIsMissed | core/cache.c:816-822 | an input whose absolute expiry no scan will find |
| CacheTheorems.SweepOnFullIsLate | core/cache.c:47-48 | a run of four operations from an empty cache after which an item expires before the scan that sweep_on_full put off |
| CacheTheorems.StoredExpiry | core/cache.c:814-822 | a successful set stores the converted expiry, or with a fixed expiry keeps the one that is there |
| CacheTheorems.FailedExpiry | core/cache.c:883-905 | a failed update leaves its expiry in the cache unless it has cleared it, any other failed set leaves the old one |
| CacheTheorems.RelativeExpiryIff | core/cache.c:814-822 | a relative expiry is stored as expires + now if and only if the cache is no LRU cache or now is 0 |
| CacheTheorems.LruExpiryIsThePast | core/cache.c:464-473 | in a lazy LRU cache an item with 0 < expires <= now is never read back |
| CacheTheorems.LruExpiryIsLongGone | core/cache.c:814-822 | such an item |
| CacheTheorems.MakeRoomIdleIff | core/cache.c:27-68 | making room removes nothing if and only if there is nothing, or neither LRU purge nor clear nor a due sweep with something expired applies |
| CacheTheorems.FailedSetIsAtomicIff | core/cache.c:771-944 | exactly when a set that fails leaves every entry as it was, in terms of the flags, the stored expiry and the options |
| CacheTheorems.FailedUpdateWipes | core/cache.c:897-905 | with clear_on_full an update that finds no blocks empties the cache |
| CacheTheorems.FailedUpdateLosesTheKey | core/cache.c:897-905 | a run of two operations from an empty cache whose second finds no block, fails and loses the key |
| CacheTheorems.RecoveredBitmapForgets | core/cache.c:720-758 | a recovered item whose block the new bitmap calls free |
| CacheLaws.GetGivesIff | core/cache.c:568-632 | a get gives an entry if and only if it is the one under the key, gettable and not lazily expired |
| CacheLaws.GetLeaves | core/cache.c:568-588 | a get deletes at most the entry it finds expired, moves the key it gives to the end of the recency order, and else changes nothing |
| CacheLaws.DelLaw | core/cache.c:656-718 | a delete succeeds exactly on a key that is there and not lazily expired; one entry goes, and its place in the recency order |
| CacheLaws.RoomLeaves | core/cache.c:27-68 | exactly which entries stay when room is made: not the oldest of an LRU cache, not the expired ones if a sweep is due, and none if the cache is cleared because the sweep found nothing |
| CacheLaws.SetRefuses | core/cache.c:760-783 | a set of the wrong size, or on a live key without the update flag, fails and changes nothing |
| CacheLaws.SetSucceedsIff | core/cache.c:760-944 | a set succeeds if and only if the sizes are right, the blocks are found, and the key is live and to be updated, or not live and a slot is free or can be made free |
| CacheLaws.SetStores | core/cache.c:814-942 | the whole entry after a successful set: value, expiry and flags; an update keeps the flags |
| CacheLaws.SetSpares | core/cache.c:760-958 | a successful set changes no other entry unless it makes room for a new key in a full cache |
| CacheLaws.SetSchedules | core/cache.c:814-822 | the next scan afterwards is the least of the old one and the new expiry |
| CacheLaws.SetTouches | core/cache.c:814-888 | the key is last in the recency order afterwards, and the others keep their order |
| CacheLaws.ValueWasStored | core/cache.c:568-958 | after every run, the value under a key is that of the last successful set on it, with no successful delete since |
| LegionModel.AboveIsStrictTotal | core/legion.c:429-442 | (valor, uuid) comparison is a strict total order |
| LegionModel.AboveIs | core/legion.c:429-442 | the greater candidate has the greater valor, or the same valor and at the first differing character of the uuids the greater one |
| LegionModel.BestIsGreatest | core/legion.c:420-445 | the loop's choice is the greatest eligible candidate |
| LegionModel.BestIsShared | core/legion.c:420-445 | two instances with the same candidates make the same choice, whatever the order of their lists |
| LegionModel.ChecksumIsShared | core/legion.c:246-264 | and compute the same checksum |
| LegionModel.SumOfPermutation | core/legion.c:246-264 | the sum does not depend on the order |
| LegionModel.ChecksumGrows | core/legion.c:246-264 | one more peer adds its valor and every character of its uuid, modulo 2^64 |
| LegionModel.SumOfCharacters | core/legion.c:246-258 | every character counts for its value |
| LegionModel.MembershipIsSeen | core/legion.c:246-264 | a peer with a valor that comes or goes changes the checksum |
| LegionModel.StillLordIff | core/legion.c:320-411 | exactly when a check leaves its instance the Lord |
| LegionModel.TallyIs | core/legion.c:266-318 | the votes: one and one per peer if every peer announced my checksum and my proposal, otherwise none; a suspended instance or arbiter that prefers itself proposes nobody |
| LegionModel.CheckLeaves | core/legion.c:266-411 | what a check leaves beside the title: the recorded choice and checksum, joined, changed, death, suspension and the last warning |
| LegionModel.FailedHookSuspends | core/legion.c:343-353 | a winner whose lord hook fails is dead and no Lord, and no check up to the end of the suspension makes it Lord |
| LegionModel.WinnerBecomesLord | core/legion.c:339-371 | a winner whose hooks succeed is Lord, joined and not suspended |
| LegionProtocol.WinnerTakesAll | core/legion.c:299-321 | everybody in the electorate of a winner currently chooses the winner |
| LegionProtocol.AtMostOneWinner | core/legion.c:299-371 | with majority quorums and current votes, two members never both pass the condition to become Lord, even if their lists differ |
| LegionProtocol.OneLordKeptIff | core/legion.c:339-411 | if at most one member is Lord, that still holds after an event if and only if the event is not a winning check with succeeding hooks beside another Lord |
| LegionProtocol.OneLordThroughoutIff | core/legion.c:339-411 | a run keeps to one Lord throughout if and only if no such event is in it |
| LegionProtocol.DeathRemoves | core/legion.c:636-641 | a dead sender is taken out of the list and the others stay in order; nobody is removed for a stranger |
| LegionProtocol.NewsIsRecorded | core/legion.c:643-647 | the vote and the time of a listed sender are recorded and nothing else changes |
| LegionProtocol.NewsIsAdded | core/legion.c:609-647 | a sender that is not listed is added at the end with its vote, or ignored without a name |
| LegionProtocol.ListedOnceIff | core/legion.c:119-199 | hearing somebody twice lists it once if and only if its valor fits 16 bits |
| LegionProtocol.AnnouncementIsHeard | core/legion.c:591-647 | whoever lists the sender takes over the vote it announces, or drops it if it died; only its own packets are overheard |
| LegionProtocol.SeenKeepsOrder | core/legion.c:201-232 | those that stay keep their order |
| LegionProtocol.Seen | core/legion.c:201-232 | exactly the nodes that have not been silent for longer than the tolerance remain |
| LegionConvergence.EveryoneAgrees | core/legion.c:246-264 | in a mutually known legion all choose the same leader and compute the same checksum |
| LegionConvergence.CheckDecides | core/legion.c:266-415 | a member that has heard the settled vote of every peer is the Lord after its check if and only if it is the leader |
| LegionConvergence.EventKeepsFixed | core/legion.c:591-646 | no announcement, delivery or check changes the known membership |
| LegionConvergence.OneLord | core/legion.c:266-647 | check, deliver, check in any interleaving ends with exactly one Lord, and every other member has a smaller valor, or the same valor and a uuid that is less at the first differing character |
| LegionSchedule.RoundRobinElects | core/legion.c:479-660 | from every fixed legion, all check, all announce, all hear, all check is such an interleaving, and elects one Lord |
| LegionTwoLords.ElectedFromStart | core/legion.c:266-415 | two of three fresh instances introduce themselves, vote and elect a Lord |
| LegionTwoLords.TwoLordsAtOnce | core/legion.c:299-411 | a run from three fresh instances to two Lords, every quorum a majority |
| Legion.UuidCmp | core/utils.c:4101-4112 | true if and only if at the first character that differs the first uuid has the greater one |
| Legion.Member.BestNode | core/legion.c:420-445 | the best candidate: no eligible node and not the instance itself has a greater valor, or the same and a later uuid; no node if and only if the instance itself is best |
| Legion.Member.GetLord | core/legion.c:418-476 | the choice is recorded, and a change is flagged exactly when it differs or was unset |
| Legion.Member.ComputeChecksum | core/legion.c:246-264 | the wrapping byte-by-byte sum is the checksum of the membership |
| Legion.Member.CountVotes | core/legion.c:299-318 | none if and only if some peer disagrees in checksum, valor or uuid, otherwise one plus one per peer |
| Legion.Member.Decide | core/legion.c:320-411 | what the votes lead to, hook failure included, and what is announced on the way |
| Legion.Member.CheckNodesStep2 | core/legion.c:266-415 | the whole check takes exactly the Check step of the protocol and announces what the protocol says |
| Legion.Member.GetNode | core/legion.c:183-199 | the first node with that valor, name and uuid, spelled out |
| Legion.Member.ReceiveMessage | core/legion.c:591-646 | own packets are ignored, the dead are removed or never added, others are added once and their vote recorded |
| Legion.Member.ReceivePacket | core/legion.c:591-607 | a packet that is too old is dropped, others are received |
| Legion.Member.SendAnnouncement | core/legion.c:775-811 | a suspended instance sends nothing; otherwise the suspension ends and the recorded choice is sent |
| Legion.Member.ExpireNodes | core/legion.c:201-232 | exactly the nodes silent for longer than the tolerance are removed, order kept |
| LegionNodes.ParseUndoesFrames | core/legion.c:88-116 | little-endian framed scrolls parse back to the list |
| LegionNodes.FrameIs | core/legion.c:96-111 | two bytes of length, the low one first, then the scroll |
| LegionNodes.NodeList.Rebuild | core/legion.c:88-116 | when the own scroll does not fit it is given up and the list stays; otherwise at most the maximal size is written and parses back to the own scroll and the longest prefix of node scrolls, in list order, that fits |
| LegionNodes.NodeList.Add | core/legion.c:119-148 | the node is appended, the list stays doubly linked; a node without a name is refused |
| LegionNodes.NodeList.Remove | core/legion.c:151-181 | exactly that node is removed, the list stays doubly linked, and the scroll list is rebuilt from the rest |
| Buffers.Buffer.Fix | core/buffer.c:19-32 | succeeds if and only if the limit allows; the contents never change |
| Buffers.Buffer.Ensure | core/buffer.c:34-52 | exactly when it succeeds, and that success means room for n bytes if and only if the limit allows them; the contents never change and len stays within the limit |
| Buffers.Buffer.Append | core/buffer.c:99-125 | exactly when it succeeds; the contents are extended, or unchanged on failure |
| Buffers.Buffer.Decapitate | core/buffer.c:84-89 | drops exactly the first bytes, or fails and changes nothing |
| Buffers.Buffer.Insert | core/buffer.c:54-61 | exactly when it is a splice, an error that changes nothing, or a move past the end of the buffer |
| Buffers.InsertionMayOverrun | core/buffer.c:54-61 | an input at which the insertion moves bytes past the end |
| ChunkWire.PrintThenRead | core/buffer.c:73-81 | hexadecimal print and parse undo each other |
| ChunkWire.StrtoulReadsLine | core/chunked.c:61-65 | strtoul stops at the line end and gives the value of the digits |
| ChunkWire.FirstDigitWeighsMost | core/chunked.c:62-63 | hexadecimal digits weigh by their position, the first one most |
| ChunkWire.DigitsAre | core/chunked.c:62-63 | the digits 0 to 9 and A to F in either case have the values 0 to 15 |
| ChunkWire.ScanIs | core/chunked.c:56-77 | a line is judged by the first byte that is no letter or digit and the one behind it: unfinished, ended there, or bad |
| ChunkWire.ExtensionsAreRefused | core/chunked.c:69-73 | any other byte before the line end, such as the semicolon of an extension, makes the line bad |
| ChunkWire.BadOfPrefix | core/chunked.c:56-77 | on a prefix of a bad line the scan wants more until the deciding byte is there, and finds it bad from then on |
| ChunkWire.NoNumberReadsAsTheEnd | core/chunked.c:61-73 | a line of letters and digits that does not start with a hexadecimal digit is read as the end of the body |
| ChunkWire.EmptyLineReadsTheNext | core/chunked.c:61-65 | an empty line gets its size from the line behind it |
| ChunkWire.LineOfPrefix | core/chunked.c:56-77 | on any prefix of a stream, the line scan asks for more, gives the size and stops behind the line end, or finds the line bad, each exactly when |
| ChunkWire.PrintedHeaderIsRead | core/buffer.c:73-81 | a printed header is read back as the length modulo 2^32, whatever follows |
| ChunkWire.PrintedChunkIsGoodIff | core/buffer.c:73-81 | header, payload and line end form a chunk if and only if the length is from 1 to 2^32-1 |
| ChunkWire.FourGigabytesReadAsTheEnd | core/buffer.c:66-80 | the header printed for 2^32 bytes is read as the end of the body |
| ChunkWire.PrintedIsWellFormed | core/buffer.c:73-81 | a printed body is a well-formed stream of exactly its payloads |
| Chunked.ChunkReader.Recv | core/chunked.c:20-54 | some bytes of the stream arrive behind those in the buffer, or none |
| Chunked.ChunkReader.Fill | core/chunked.c:182-196 | buffer and stream together are unchanged, need is counted down exactly, and it fails for lack of data or because the limit is reached |
| Chunked.ChunkReader.Readline | core/chunked.c:56-77 | -2 for an unfinished line, -1 for a bad one, otherwise the size, and the line is dropped |
| Chunked.ChunkReader.ParseLine | core/chunked.c:203-216 | on any bytes the size, -1 or -2 by the scan of the line; on a good stream the size is that of the next chunk, 0 behind the last one, and -1 exactly at the bad line |
| Chunked.ChunkReader.Parse | core/chunked.c:200-237 | waits for the whole chunk, or hands it out; ends exactly on a complete size line of value 0, and fails on a bad line, without ending, and on a size of 2^63 or more |
| Chunked.ChunkReader.Round | core/chunked.c:181-237 | one round of the read loop: receive if something is needed, then parse |
| Chunked.ChunkReader.Read | core/chunked.c:163-239 | however the stream is cut, the next chunk, or the end behind the last one, or a failure that loses nothing: at a bad line behind the last chunk, and then for good; for lack of data; or, only if some line or chunk leaves less than a page below the limit, at the limit, and then for good. The end is sticky, and on any stream it comes only behind a complete size line of value 0 |
| Chunked.ChunkReader.ReadChunks | core/chunked.c:163-239 | repeated calls give the chunks whole, in order and once each, up to the end or such a failure; in front of a bad line they never end |
| Chunked.DripFails | core/chunked.c:181-196 | for every stream, page size and limit such that a line or chunk leaves less than a page below the limit, a reader with these and a script of one-byte reads fails at the limit with reads left, and goes on failing |
| Chunked.DripInto | core/chunked.c:181-196 | the same of any reader at the start of such a stream that comes byte by byte |
| Chunked.SixBytesOfEight | core/chunked.c:181-196 | such a reader: six bytes, pages of four, a limit of eight |
| Chunked.DecodePrinted | core/buffer.c:73-81 | a printed body comes back as its payloads for every script of reads and every limit, all of it unless the source went dry or the limit is too tight |
| Chunked.RefuseBroken | core/chunked.c:203-211 | good chunks and a bad line behind them: whatever the reads, the chunks come out in order and then it fails, behind all of them unless the source went dry or the limit is too tight |
| Chunked.AppendChunked | core/buffer.c:73-81 | exactly when the header is appended; nothing changes otherwise |
| Chunked.InsertChunked | core/buffer.c:63-71 | the header is spliced in, refused, or does not fit, exactly as for any insertion |
| Chunked.BodyReader.Pull | core/chunked.c:92-107 | leftover bytes and undecoded chunks together are unchanged; nothing comes only at the end or a bad line, for lack of data or at a limit that is too tight |
| Chunked.BodyReader.ReadEverything | core/chunked.c:90-108 | answer, leftover and undecoded chunks are the body; all of it unless the source went dry or the limit is too tight |
| Chunked.BodyReader.ReadUpTo | core/chunked.c:86-161 | exactly the next min(len, remaining) bytes unless the source went dry or the limit is too tight; nothing is lost |
| RunQueues.RunQueue.Push | core/async.c:79-104 | appended at the end unless already queued; no request is queued twice, the list stays doubly linked |
| RunQueues.RunQueue.Bypass | core/async.c:58-66 | the two pointer updates change exactly the links of the neighbours |
| RunQueues.RunQueue.Remove | core/async.c:56-77 | exactly that cell is removed, the list stays doubly linked |
| HubModel.AddTimeoutKeeps | core/async.c:258-271 | one timer per request, the timers exactly those of the requests |
| HubModel.AddFdKeeps | core/async.c:166-203 | every table entry names a request that waits on that descriptor |
| HubModel.AddFdKeepsMirrorIff | core/async.c:166-203 | the table goes on mirroring the wait lists if and only if the descriptor was free or already belonged to the request |
| HubModel.ResetKeeps | core/async.c:119-136 | a reset keeps the invariant and the mirror |
| HubLaws.TimeoutIsDueIff | core/async.c:258-271 | a first timeout is due exactly from now + timeout on, and a timeout of 0 or less never |
| HubLaws.FirstDeadlineStays | core/async.c:264-265 | a second timeout changes no deadline |
| HubLaws.WatchIsDueIff | core/async.c:166-203 | the same of the timeout that comes with a descriptor |
| HubLaws.AskingLeaves | core/async.c:166-271 | asking for a timeout or a descriptor changes no other request and no queue; the descriptor goes to the request that asked last |
| HubLaws.ResetLeaves | core/async.c:119-136 | a released request has no wait, no timer and no descriptor left; the others keep theirs |
| HubRuns.ExpireEarliest | core/async.c:145-158 | the least timer is the single timer of one request not woken before, and is gone afterwards, so the loop ends |
| HubRuns.ExpiryHappens | core/async.c:138-164 | an expiry always has an outcome |
| HubRuns.ExpiryFacts | core/async.c:138-164 | afterwards no timer is due; each expired request is queued exactly once, timed out and waits for nothing, no descriptor leads to it; all others are unchanged and the mirror is kept |
| HubLaws.ExpiryLeaves | core/async.c:138-164 | a request is timed out, and queued, exactly if its deadline is at or before now; everything else of it, and everybody else, stays |
| HubRuns.PlayIsLocal | core/async.c:331-353 | a turn changes its own request only, and takes no descriptor for anybody else |
| HubRuns.PassFacts | core/async.c:584-603 | every queued request takes exactly one turn; the queue keeps, in order, exactly those that neither ended nor wait; nobody else changes |
| HubRuns.NextKeeps | core/async.c:449-604 | every event keeps the invariant |
| HubRuns.EveryRun | core/async.c:449-604 | over every run, a request that answered "again" is either queued exactly once or waits for something, never both |
| HubRuns.StrandedForever | core/async.c:565-580 | a waiting request without a timer and without a table entry is never woken, whatever happens |
| HubRuns.NotStrandedWakes | core/async.c:138-164 | every other waiting request is woken by its timer or by one of its descriptors |
| HubLaws.DispatchLeaves | core/async.c:565-580 | an event goes to the request in the table, which learns which descriptor it was, waits for nothing and is queued once |
| HubLaws.AdmitLeaves | core/async.c:541-552 | a parsed request is queued once, waits for nothing and has the status 0 |
| HubLaws.WokenIff | core/async.c:449-604 | a request outside the queue gets into it by one event if and only if that is its headers being parsed, a clock at or past its deadline, or a descriptor that leads to it; otherwise it stays as it is |
| HubLaws.SleepsUntil | core/async.c:138-271 | over every run nothing else wakes a sleeping request before its deadline |
| HubLaws.SleeperWakesIff | core/async.c:138-271 | over every run a sleeping request gets into the queue if and only if a clock reaches its deadline |
| HubLaws.SleepsAsAsked | core/async.c:258-603 | a request that sleeps in its turn and answers again is asleep after the pass until now + timeout |
| HubLaws.TurnWaitsOnIff | core/async.c:119-203 | after its turn a request waits on exactly the descriptors it asked for since it was last released, and those it had if it was not |
| HubLaws.TurnTimer | core/async.c:119-271 | its timer is the one it had, or the first that it asked for since it was last released |
| HubLaws.TurnLeaves | core/async.c:331-353 | a status of 0 or less ends the request, which is then released with status 0; a positive one is kept with what the turn asked for |
| HubRuns.MirrorStrandsNobody | core/async.c:166-203 | while the table mirrors the wait lists nobody is stranded |
| HubRuns.SharedDescriptorStrands | core/async.c:565-580 | an event on a descriptor that another request has taken over strands the first one |
| HubRuns.SharedDescriptorAtAnInput | core/async.c:166-203 | a run from the initial state of a hub with two requests and one descriptor after which the first request is stranded |
| HubMirror.PassMirrors | core/async.c:584-603 | a pass in which no request takes over a descriptor of another one keeps the mirror |
| HubMirror.PoliteRunWakesAll | core/async.c:449-604 | over every run with one waiter per descriptor, the table mirrors every wait list exactly and whoever waits can be woken by one event |
| Async.Hub.AddTimeout | core/async.c:258-271 | a request without a timer gets the deadline now + timeout if the timeout is positive; a timer it has stays; otherwise exactly the step of the model |
| Async.Hub.AddFd | core/async.c:166-203 | the descriptor joins the wait list and its table entry becomes the request; the deadline is now + timeout unless there was one; a negative descriptor is refused and changes nothing |
| Async.Hub.ResetRequest | core/async.c:119-136 | the loop clears exactly the table entries of the descriptors the request waits on |
| Async.Hub.ExpireTimeouts | core/async.c:138-164 | exactly the requests whose timer is due are woken, queued in the order of their deadlines |
| Async.Hub.OnReady | core/async.c:565-580 | an event wakes the request in the table, an unknown descriptor changes nothing |
| Async.Hub.OnParsed | core/async.c:541-552 | a parsed request waits for nothing and is queued |
| Async.Hub.TakeTurn | core/async.c:331-353 | what a request asks of the hub during its turn, and the reset of one that ended |
| Async.Hub.Serve | core/async.c:587-603 | the next cell, read before the turn, is the right one also when the current cell is removed |
| Async.Hub.RunPass | core/async.c:584-603 | the pass over the linked queue, with removals, computes the pass over the sequence |

## Left out

- Cache.Store.Set2: does not model the MATH flags (increment, decrement, multiply, divide on a stored 64-bit number), because they only change which bytes are stored and in bitmap mode read them from the new place.
- Cache.Store.Get2: does not model hit and miss counters, the last-modified time, get4 and num2, which differ only in what they report.
- Cache.Store.SweeperPass: the sets of other processes are those with relative expiries, or none, in caches without sweep_on_full; `CacheTheorems.AbsoluteExpiryInTimeIff` and `CacheTheorems.SweepOnFullInTimeIff` say what happens to the next scan otherwise.
- Chunked.ChunkReader.constructor: excludes a limit below the page size, with which the buffer starts beyond its limit.
- LegionConvergence.OneLord: assumes valor below 65536, because nodes store 16 bits of it, and that no list drops a member.
- Legion.Member.GetLord: does not model the copy of the lord's scroll, which no decision depends on.
- Legion.Member.ReceiveMessage: does not model the rebuilding of the scroll list; `LegionNodes.NodeList` has it, with the linked list, apart from the sequence of nodes that the election reads.
- Cache slot tables and LRU links are sequences that the methods reassign, not arrays, and the records of the item array are three parallel tables; the model does not capture aliasing between them. The bitmap and the data are arrays. A record holds its key as a byte sequence, so bytes behind keysize are not modelled.
- One clock reading per cache operation; two readings inside one call that straddle a second are not modelled.
- The hash is any fixed function; the random and rr algorithms of core/hash.c are not functions of the key.
- Cache store files, mmap, locks, replication, synchronisation between nodes and the remote cache protocol: system calls and network plumbing. A lock becomes an atomic step.
- Legion encryption, sockets and hook execution: a hook succeeds or fails as a parameter says. Characters of a uuid are compared as unsigned bytes; they are hexadecimal digits and dashes.
- The red-black tree of timers is a set with a least element; among equal deadlines any order is allowed. The force_again flag, signals, accept and protocol parsing of the async loop, and the stack of free cores are left out; what the code of a request does in its turn is a parameter.
- Failing allocations; lengths near the machine word where sums of sizes would wrap.
- Chunk extensions and trailers: the reader refuses the first and does not look at the second. strtoul reads only the bytes received so far.
- The master, emperor, configuration, protocol, routing, spooler and plugin code, and every other file of the repository.
