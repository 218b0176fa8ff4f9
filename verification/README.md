# Verified model of a Shadowsocks-style transparent proxy

The proxy redirects TCP and UDP flows of a network to encrypted upstream
servers. Its own code and the data structures it carries hold several cores
that work by changing state in place: buffers, heaps, queues, linked tables,
probe chains, slabs. The modules here model those cores branch by branch and
prove, for all inputs and all runs, what they are for. Methods are the
source's operations on the source's state; functions say what they should
compute; lemmas join the two over whole runs.

`dafny verify dfyconfig.toml` checks everything.

## The modules

**Hashing** (`deps/xxhash/xxhash.h`). `Xxh3` states the long-input hash as a
run over stripes (`Absorb`) and proves the one-shot loop and
`XXH3_consumeStripes` against it. `Xxh3Stream` has the streaming state with its
256-byte buffer, the held-back input, the in-place loop, the saved last stripe
and the catch-up copy; main result `StreamingAgrees`. `XxhLanes` does the same
for XXH32 and XXH64. `XxhArith` covers the arithmetic the streaming proofs keep
abstract: the 64x64 to 128 bit product, the scalar, SSE2 and AVX2 forms of
accumulate and scramble, the two branches of the 9 to 16 byte hash.

**Event loop** (`deps/libev/ev.c`). `AsyncWakeup` is the cross-thread wake-up as
a state machine over single loads and stores of any number of senders and the
loop; main results `NoLostWakeUp` and `CompletedSendIsNotLost`. `TimerHeap`
describes the 4-ary heap with back-indices, `PendingQueue` the queue with
cancellation, `EventLoop` the loop's operations on both; main result `RunTimers`.

**Fake DNS** (`src/fakedns.c`). `FakeDnsPool` is the double-hashing pool with
expiry times that wrap; `FakeDnsMru` the eight-cell cache validated by version;
`FakeDnsSnapshot` the snapshot writer and reader; `DnsName` and `DnsQuery` the
name codec and the query handler; `PtrName` the parser of reverse names.

**TCP** (`src/tcp_proxy.c`). `TcpRelay` is the server-to-client direction: the
incremental decoder over one sliding buffer that also holds the plaintext.
`TcpSession` adds the other direction, half-close and the watchers, and runs a
whole session; main result `RunSession`. `TcpHandshake` is connecting with
fail-over: the functions of `Setting` say what each step makes of a session, and
the methods of `Handshake` are proved equal to them.

**Server selection** (`src/server_selector.c`). `ServerSelector` takes the
critical sections as the steps of any number of threads; `ProbeWindow` is the
ring of probe samples and the score made of it.

**Tables and pools.** `LinkedLists`, `HashBuckets` and `Uthash` model
`deps/uthash/uthash.h`, the element list and the bucket chains at once. `Lru` is
`src/lrucache.h`; `UdpSessions` and `UdpReplies` are the two halves of
`src/udp_proxy.c` with the pools sized in `src/main.c`, and `UdpFlush` is the
grouping of queued sends by socket; `Mempool` is the slab pool of `src/mempool.c`.

`Bytes`, `Division`, `Powers`, `Sequences` and `Options` hold shared vocabulary.

## Conventions and assumptions

- A pointer to a watcher, table element, list node, block or server is a number
  that indexes the state; two aliases are two equal numbers. Buffers, timer
  arrays, queues and tables are fields changed in place.
- Bytes are in little-endian order. Integers that wrap in the source wrap in the
  model; where the model uses an unbounded one, it is listed below.
- Functions outside a module's subject are parameters, so results hold for
  every choice: the XXH3, XXH32 and XXH64 rounds, avalanches and short hashes
  in the streaming proofs; name hashing in the pool; AEAD opening and sealing, a
  function of the chunk counter and the bytes with the fixed overheads; what
  sockets, `malloc` and the clock return.
- Lemmas carry `{:induction false}`: each induction is the one written out.

## Where the code falls short of the simple statement

Properties that fail for some inputs are given with the input and the exact
condition.

- Names are stored whole, NULs included, but compared as C strings, so two names
  that share a C string can get two slots (`NulBreaksUniqueness`,
  `SharedCStringBreaksUniqueness`). Lookups of a set of names keep them unique,
  for every hash, exactly when no two share a C string
  (`UniqueForEveryHashExactly`).
- A snapshot skips entries, so a loaded pool can have holes in its probe chains
  and then give one name a second address (`SkippedEntryBreaksUniqueness`). In
  any pool every later run keeps names unique exactly when no stored name has a
  hole on its chain before its slot (`FindableExactly`, `RunsUniqueExactly`);
  seen when saving, exactly when no kept name's chain passed a skipped entry
  before its slot (`SafeAfterLoadExactly`), in particular when none was skipped.
- Saving compares times as plain numbers (`src/fakedns.c:787`), lookups compare
  them across the wrap (`src/fakedns.c:60-64`), and an entry that expires in the
  second of saving is dropped though not expired. The two tests agree exactly
  when clock and expiry are on the same side of a wrap and not the same second
  (`KeptVersusExpired`), and exactly then for all entries a snapshot restores
  the unexpired ones (`UnexpiredRestoredExactly`). Just before the wrap an entry
  with a day left is skipped (`SkippedBeforeWrap`).
- A label holding a dot or a NUL is not written back as it was read
  (`WrittenBackExactly`, `ReadAndWrittenBack`).
- The parser of reverse names accepts more than the standard's names: signs
  (`SignIsAccepted`), white space and empty parts. `AcceptedExactly` says which of
  the accepted names are the standard's.
- A table limit of zero would evict nothing, because the new entry is never its
  own victim (`StaysWithin`); the command line refuses a size of zero.
- An initial payload that has been queued whole is not replayed, so a request may
  fail although an untried server is left (`QueuedIsNotReplayed`). That, and a
  client that has gone, are exactly the reasons to give up before every server has
  been turned to (`GiveUp`, `RunHandshake`).
- Grouping queued UDP sends by swapping can turn a later group around
  (`LaterGroupTurned`). The first group always keeps its order. With two sockets
  all groups do exactly when the length of each run of the first one's sends is a
  multiple of the number of the other's sends before it (`TwoSocketsExactly`); the
  same condition at each socket's turn is sufficient for any number of sockets
  (`FittingKeepsOrder`), and holds when each socket's sends stand together
  (`ContiguousFits`).
- The fourth comparison in the slow path of the downward sift is dead: that path is
  taken only when the fourth child does not exist (`EarliestOf`).
- Responses always have the "recursion desired" bit, since the constant they
  start from includes it (`src/fakedns.c:546`, `ResponseIsWellFormed`).
- The memory fences are compiled out (`src/libev_config.h:36-37`): the wake-up
  results are for sequentially consistent interleavings.

## Model

| member | source | states |
|---|---|---|
| Xxh3.Accumulate | deps/xxhash/xxhash.h:4926-4942 | accumulating a run of stripes one 64-byte stripe and one secret step at a time is the reference fold over stripes |
| Xxh3.AbsorbRounds | deps/xxhash/xxhash.h:6654-6688 | the reference run over all stripes of an input, extended by stripes that stay within a block, is the plain accumulation of them |
| Xxh3.AbsorbPrefix | deps/xxhash/xxhash.h:6654-6688 | the state after n stripes depends on no byte beyond them |
| Xxh3.RoundsContinue | deps/xxhash/xxhash.h:6654-6688 | accumulating a window of the data continues the reference run from wherever it stands in a block |
| Xxh3.ConsumeStripes | deps/xxhash/xxhash.h:6654-6688 | consuming any number of stripes from any position in a block scrambles exactly at the block boundaries and ends where the reference run over all stripes so far ends |
| Xxh3.ConsumeFullBlocks | deps/xxhash/xxhash.h:6664-6679 | the loop over block boundaries keeps accumulator and position those of the reference run |
| Xxh3.BlockArithmetic | deps/xxhash/xxhash.h:6237-6248 | blocks and stripes computed from (len - 1) cover all stripes but the last one, with none left out and none twice |
| Xxh3.HashLongInternalLoop | deps/xxhash/xxhash.h:6229-6260 | the one-shot loop over whole blocks, the partial block and the last, possibly overlapping, stripe computes the reference accumulator |
| Xxh3Stream.FillWindow | deps/xxhash/xxhash.h:6719-6732 | topping up the buffer makes it the next window of the whole input |
| Xxh3Stream.DirectWindow | deps/xxhash/xxhash.h:6735-6748 | the input consumed in place is the next window, and its last stripe, saved in the buffer, is the one before the rest |
| Xxh3Stream.StoreRest | deps/xxhash/xxhash.h:6750-6755 | what is left over is buffered without losing the stripe that precedes it |
| Xxh3Stream.CatchUp | deps/xxhash/xxhash.h:6821-6831 | with less than a stripe buffered, the bytes saved at the end of the buffer and the buffered ones make up the last stripe of the input |
| Xxh3Stream.State.ResetInternal | deps/xxhash/xxhash.h:6566-6588 | after a reset nothing has been absorbed, whatever the buffer holds |
| Xxh3Stream.State.Reset | deps/xxhash/xxhash.h:6594-6600 | a reset state is that of the empty input with the default secret |
| Xxh3Stream.State.ResetWithSecret | deps/xxhash/xxhash.h:6603-6611 | a reset with a secret of at least the minimum size is keyed by it; shorter ones are refused |
| Xxh3Stream.State.ResetWithSeed | deps/xxhash/xxhash.h:6614-6623 | a reset with a seed is keyed by the secret derived from it, also when that secret is reused |
| Xxh3Stream.State.ResetWithSecretAndSeed | deps/xxhash/xxhash.h:6626-6635 | a reset with both is keyed by the given secret for long inputs and by the seed for short ones |
| Xxh3Stream.State.Update | deps/xxhash/xxhash.h:6699-6777 | an update call adds exactly its input to what has been absorbed, through whichever of the buffer, the in-place loop and the hold-back copy it goes |
| Xxh3Stream.State.CompleteBuffer | deps/xxhash/xxhash.h:6722-6732 | a filled buffer is absorbed as four stripes and emptied |
| Xxh3Stream.State.ConsumeDirect | deps/xxhash/xxhash.h:6735-6748 | long input is absorbed without being copied |
| Xxh3Stream.State.DigestLong | deps/xxhash/xxhash.h:6797-6833 | finishing absorbs what is buffered and the last stripe, and leaves the state as it was |
| Xxh3Stream.State.Digest | deps/xxhash/xxhash.h:6835-6848 | the digest is the hash of everything absorbed, in the mode of the last reset |
| Xxh3Stream.OneShot | deps/xxhash/xxhash.h:6401-6452 | the one-shot hash chooses by length and mode between the short hashes and the loop |
| Xxh3Stream.StreamingAgrees | deps/xxhash/xxhash.h:6699-6848 | for every mode, every input and every way of cutting it into update calls, streaming gives the one-shot hash of the concatenation |
| XxhLanes.ConsumeLong | deps/xxhash/xxhash.h:3015-3052 | the long-input loop consumes every whole block, once, and stops with less than one left |
| XxhLanes.OneShot | deps/xxhash/xxhash.h:3170-3191 | the one-shot hash folds all whole blocks, then adds the length and finalizes the rest |
| XxhLanes.BlocksSplit | deps/xxhash/xxhash.h:3551-3580 | blocks can be consumed in two goes |
| XxhLanes.LaneState.Feed | deps/xxhash/xxhash.h:3246-3290 | an update of either width adds exactly its input to what has been absorbed |
| XxhLanes.LaneState.CompleteBlock | deps/xxhash/xxhash.h:3265-3272 | a partly filled block is completed and consumed as one |
| XxhLanes.LaneState.ConsumeRest | deps/xxhash/xxhash.h:3274-3279 | whole blocks of the input are consumed in place |
| XxhLanes.Xxh32State.Update | deps/xxhash/xxhash.h:3246-3290 | the 32-bit state keeps the length modulo 2^32 and remembers that it was ever long |
| XxhLanes.Xxh32State.Digest | deps/xxhash/xxhash.h:3293-3305 | the 32-bit digest is the hash of everything absorbed, also when the kept length has wrapped |
| XxhLanes.Xxh64State.Update | deps/xxhash/xxhash.h:3741-3782 | the 64-bit state keeps the total length |
| XxhLanes.Xxh64State.Digest | deps/xxhash/xxhash.h:3785-3800 | the 64-bit digest is the hash of everything absorbed |
| XxhLanes.Xxh32StreamingAgrees | deps/xxhash/xxhash.h:3170-3305 | XXH32: every way of cutting an input into update calls gives the one-shot hash |
| XxhLanes.Xxh64StreamingAgrees | deps/xxhash/xxhash.h:3668-3800 | XXH64: every way of cutting an input into update calls gives the one-shot hash |
| XxhArith.SumPartialProducts | deps/xxhash/xxhash.h:4575-4583 | the carries of the schoolbook multiplication fit in 64 bits and lose nothing |
| XxhArith.Mult64to128Exact | deps/xxhash/xxhash.h:4569-4583 | the two halves are exactly the 128-bit product of any two 64-bit numbers |
| XxhArith.ScalarRound | deps/xxhash/xxhash.h:6007-6025 | one scalar round adds the data word to the neighbouring lane and the product of halves to its own |
| XxhArith.Accumulate512Scalar | deps/xxhash/xxhash.h:6030-6047 | eight rounds in place, each reading lanes earlier rounds have changed, give every lane its formula over the original lanes |
| XxhArith.ScrambleAccScalar | deps/xxhash/xxhash.h:6056-6086 | scrambling in place gives every lane its formula |
| XxhArith.AccumulateSse2IsLanes | deps/xxhash/xxhash.h:5205-5234 | the shuffles, 32-bit multiplication and additions of SSE2 give each lane the scalar formula, for every input |
| XxhArith.AccumulateAvx2IsLanes | deps/xxhash/xxhash.h:5099-5127 | so does the AVX2 form, which shifts where SSE2 shuffles |
| XxhArith.ScrambleSse2IsLanes | deps/xxhash/xxhash.h:5241-5268 | multiplying the halves separately and shifting is the scalar multiplication modulo 2^64 |
| XxhArith.ScrambleAvx2IsLanes | deps/xxhash/xxhash.h:5134-5160 | so it is in the AVX2 form |
| XxhArith.Accumulate512Sse2 | deps/xxhash/xxhash.h:5205-5234 | the SSE2 loop over lane pairs does to the accumulator what the scalar loop does |
| XxhArith.ScrambleAccSse2 | deps/xxhash/xxhash.h:5241-5268 | and so does its scramble loop |
| XxhArith.HalvesProduct | deps/xxhash/xxhash.h:5260-5266 | the product of a 64-bit number and a 32-bit one, put together from the products of its halves |
| XxhArith.HighHalfBranchesAgree | deps/xxhash/xxhash.h:6949-6983 | the branches of the 9 to 16 byte hash for 32-bit and 64-bit machines compute the same high half |
| AsyncWakeup.StepKeepsInvariant | deps/libev/ev.c:2777-2890 | every single step of every thread keeps the invariant that whatever is still to be noticed will be |
| AsyncWakeup.ReachableInvariant | deps/libev/ev.c:2777-2890 | the invariant holds after every schedule of any number of sending threads and the loop |
| AsyncWakeup.NoLostWakeUp | deps/libev/ev.c:2777-2823 | whenever the loop blocks in the poll with the pipe empty, and for some watcher a send has passed its flag check and no event been fed since, some thread is on its way to write the pipe |
| AsyncWakeup.BegunSendGoesOn | deps/libev/ev.c:2805-2823 | a send not fed that has not passed the flag check has a thread still on its way to the check |
| AsyncWakeup.PassedIsDone | deps/libev/ev.c:2805-2823 | a send counts as passed from the flag check of its own thread on until an event is fed, whatever else happens |
| AsyncWakeup.CompletedSendIsNotLost | deps/libev/ev.c:2777-2823 | in every run, after a call of ev_async_send has returned and until an event is fed, a loop blocked with the pipe empty has a thread on its way to write it |
| AsyncWakeup.WakeUpArrives | deps/libev/ev.c:2805-2823 | a blocked loop cannot stay blocked while a sender that still owes the write goes on |
| AsyncWakeup.NeverStuck | deps/libev/ev.c:4088-4168 | in every reachable state somebody can step, or the loop rests with nothing owed |
| AsyncWakeup.LoopMakesProgress | deps/libev/ev.c:4088-4168 | the loop, left to itself, reaches its next poll in a bounded number of steps |
| AsyncWakeup.RunLoopFeeds | deps/libev/ev.c:2827-2890 | with no sender under way, running the loop to its next poll feeds every watcher that is owed an event |
| AsyncWakeup.PollDeliversAll | deps/libev/ev.c:2827-2890 | from any reachable state without a sender under way, the loop reaches a poll with nothing owed |
| TimerHeap.ParentAndChild | deps/libev/ev.c:2584-2587 | with C division the root is its own parent, and a slot is one of the four children of its parent |
| TimerHeap.RootIsEarliest | deps/libev/ev.c:3580-3593 | in an ordered heap no timer is earlier than the root |
| TimerHeap.MoveUp | deps/libev/ev.c:2670-2689 | moving a slot above its parent keeps the order everywhere but at the new place |
| TimerHeap.MoveDown | deps/libev/ev.c:2590-2632 | moving a slot below its earliest child keeps the order everywhere but under the new place |
| TimerHeap.MoveHole | deps/libev/ev.c:2670-2689 | shifting a neighbour into the hole keeps back-indices and cached times right everywhere else |
| TimerHeap.UpOrDown | deps/libev/ev.c:2692-2699 | after any change of one slot, the comparison with its parent tells which way it has to go |
| EventLoop.Loop.Upheap | deps/libev/ev.c:2670-2689 | sifting up restores order and back-indices, and changes nothing else about any watcher; it terminates |
| EventLoop.Loop.EarliestOf | deps/libev/ev.c:2602-2617 | both the fast and the slow path choose a child no other child is earlier than; the slow path's last comparison is never reached |
| EventLoop.Loop.Downheap | deps/libev/ev.c:2590-2632 | sifting down restores order and back-indices, and changes nothing else about any watcher; it terminates |
| EventLoop.Loop.Adjustheap | deps/libev/ev.c:2692-2699 | one changed slot, in either direction, is put right |
| EventLoop.Loop.TakeOff | deps/libev/ev.c:4417-4431 | the last slot fills the hole and is sifted either way; the heap is in order without the timer |
| EventLoop.Loop.ClearPending | deps/libev/ev.c:4277-4285 | the watcher is no longer pending, and its entry, if any, is the dummy's |
| EventLoop.Loop.TimerStart | deps/libev/ev.c:4384-4406 | a timer that is started is on the heap with its time made absolute, the others as before; an active one is left alone |
| EventLoop.Loop.TimerStop | deps/libev/ev.c:4409-4437 | a stopped timer is off the heap and off the queue, with its time made relative, the others as before |
| EventLoop.Loop.TimerAgain | deps/libev/ev.c:4440-4465 | restarting reschedules, starts or stops according to the repeat value, with the heap and the queue kept |
| EventLoop.Loop.FeedEvent | deps/libev/ev.c:2312-2329 | a pending watcher keeps its place, another is put on top |
| PendingQueue.FedKeeps | deps/libev/ev.c:2320-2326 | places and entries of the queue still agree after a watcher is put on top |
| PendingQueue.ClearedKeeps | deps/libev/ev.c:4277-4285 | and after an entry is given to the dummy |
| PendingQueue.PoppedKeeps | deps/libev/ev.c:3766-3770 | and after the top one is taken |
| EventLoop.Loop.ReifyOne | deps/libev/ev.c:3812-3833 | the earliest timer is rescheduled, never into the past, or stopped |
| EventLoop.Loop.CollectExpired | deps/libev/ev.c:3810-3834 | the loop terminates having collected exactly the timers that had expired, each once, in order of expiry |
| EventLoop.Loop.FeedReverseDone | deps/libev/ev.c:2338-2344 | feeding from the last to the first leaves the first on top and keeps the places of those pending already |
| EventLoop.Loop.TimersReify | deps/libev/ev.c:3803-3838 | exactly the expired timers are made pending, and of those newly placed the earlier ones are above the later |
| EventLoop.Loop.InvokePending | deps/libev/ev.c:3754-3775 | the queue is emptied from the top; a watcher's callback is called exactly when no callback called for one above it has stopped or restarted it |
| EventLoop.DueIsPlaced | deps/libev/ev.c:2338-2344 | the newly due are above all that was pending, and that has kept its places |
| EventLoop.Loop.RunTimers | deps/libev/ev.c:3754-3838 | in one turn every timer that has expired or was pending runs exactly once unless a callback whose turn comes before its own cancels it, nothing else runs, no callback called before has cancelled one that runs, and all run in the order of their turns: what is newly due first, in the order of expiry, then what was kept pending, from the top |
| EventLoop.RanInOrder | deps/libev/ev.c:3754-3838 | heap order, reverse feeding and the last-in-first-out queue compose to the order of the turns, and what cancels a timer has had its turn before |
| FakeDnsPool.Signed | src/fakedns.c:60-64 | the signed 32-bit difference is the true one modulo 2^32 |
| FakeDnsPool.FakeDns.constructor | src/fakedns.c:71-135 | a new pool is empty |
| FakeDnsPool.FakeDns.ProbeChain | src/fakedns.c:156-217 | the scan reports the name's slot, or the first empty one and the first expired one before it |
| FakeDnsPool.FakeDns.LookupDomain | src/fakedns.c:143-297 | a lookup refreshes, overwrites or fills one slot and answers with its address |
| FakeDnsPool.FindSlotPath | src/fakedns.c:156-217 | what the scan passed over was in use and not the name |
| FakeDnsPool.StoredIsFound | src/fakedns.c:156-217 | a name stored on a gap-free probe chain is found, wherever it is |
| FakeDnsPool.WriteKeeps | src/fakedns.c:219-297 | writing a name nobody holds into its own chain keeps every chain gap-free and every name unique |
| FakeDnsPool.LookupKeeps | src/fakedns.c:143-297 | every lookup of one of a set of names that differ as C strings keeps the stored names findable and unique |
| FakeDnsPool.NeverTwoSlots | src/fakedns.c:143-297 | for every run of lookups of names that differ as C strings, from a fresh pool and with any hash, no domain ever has two slots |
| FakeDnsPool.SharedCStringBreaksUniqueness | src/fakedns.c:143-297 | any two names that share a C string do get two slots, for some hash |
| FakeDnsPool.NulBreaksUniqueness | src/fakedns.c:143-297 | there are such names: the same up to a NUL and different behind it |
| FakeDnsPool.UniqueForEveryHashExactly | src/fakedns.c:143-297 | all runs over a set of names stay without duplicates, for every hash, exactly when no two of the names share a C string |
| FakeDnsPool.UniqueAfterLookup | src/fakedns.c:143-297 | in any pool without duplicates, one lookup of a name that fits keeps it so exactly when the scan hits, or nothing is placed (no expired slot on the chain, and the chain exhausted, the pool full or memory short), or the name is stored nowhere |
| FakeDnsPool.FindableExactly | src/fakedns.c:156-297 | in any pool without duplicates, loaded or not, every lookup at every time keeps it so exactly when each stored name has a chain without holes up to its slot |
| FakeDnsPool.RunsUniqueExactly | src/fakedns.c:143-297 | and so it is for every run of lookups |
| FakeDnsPool.StepCongruent | src/fakedns.c:208-216 | the 32-bit wrap before the mask does not disturb the probe sequence |
| FakeDnsPool.ProbesDistinct | src/fakedns.c:148-155 | the odd stride makes a lookup probe different slots |
| FakeDnsPool.UsedIsOccupied | src/fakedns.c:255-292 | the usage counter is the number of slots in use, and an empty slot is never refused for it |
| FakeDnsPool.AnsweredIsFresh | src/fakedns.c:170-254 | whoever gets an answer, its entry has more than the refresh threshold left and holds the name |
| FakeDnsPool.UnexpiredSurvives | src/fakedns.c:143-297 | no other lookup changes the name of an entry that has not expired |
| FakeDnsPool.AnswerOutlivesTtl | src/fakedns.c:60-64 | an address resolves back to the name it was given for, for at least the advertised time to live, across the wrap of the clock |
| FakeDnsMru.LookupExtendsHistory | src/fakedns.c:219-254 | slot and version never mean two different names |
| FakeDnsMru.MidOverwrite | src/fakedns.c:236-241 | between the writer's two steps, the name first and the version last, the version a reader checks is still the old one, and what a hit gives is the name the slot held before |
| FakeDnsMru.MoveToFrontPermutes | src/fakedns.c:345-368 | moving a cell to the front keeps the pointers a permutation |
| FakeDnsMru.MruCache.Promote | src/fakedns.c:345-368 | the pointers move, the cells do not |
| FakeDnsMru.MruCache.CheckCache | src/fakedns.c:335-375 | a hit is what the pool holds, and an outdated cell is dropped |
| FakeDnsMru.MruCache.Remember | src/fakedns.c:377-428 | the least recent cell is reused, and no address is cached twice |
| FakeDnsMru.MruCache.ReverseLookup | src/fakedns.c:320-430 | a reverse lookup answers as the pool does, cached or not, cut to the buffer in the same way |
| FakeDnsMru.CachedAnswers | src/fakedns.c:320-430 | over any interleaving of queries and reverse lookups the cached answers are the pool's own |
| FakeDnsSnapshot.SaveRecords | src/fakedns.c:779-803 | the entry loop writes exactly the entries it keeps, and counts them |
| FakeDnsSnapshot.Save | src/fakedns.c:742-830 | the snapshot is header, block and records, with the count patched in afterwards; an unused pool is not saved |
| FakeDnsSnapshot.LoadLoop | src/fakedns.c:899-963 | the record loop restores the names it reads up to the first record cut short |
| FakeDnsSnapshot.Load | src/fakedns.c:832-967 | a snapshot of another version or block changes nothing |
| FakeDnsSnapshot.RecordsAreParsed | src/fakedns.c:899-963 | reading back what was written gives the kept names in order |
| FakeDnsSnapshot.RoundTrip | src/fakedns.c:742-967 | loading a snapshot into a fresh pool of the same block restores exactly the kept entries, and the counter is their number |
| FakeDnsSnapshot.RestoredResolves | src/fakedns.c:320-330 | an address resolves after loading as before saving if its entry was kept, and not otherwise |
| FakeDnsSnapshot.KeptVersusExpired | src/fakedns.c:787-789 | the unsigned test at save time agrees with the wrap-around expiry test exactly when clock and expiry are on the same side of a wrap and not the same second |
| FakeDnsSnapshot.SkippedBeforeWrap | src/fakedns.c:787-789 | an entry refreshed just before the wrap, with a whole day left, is not saved |
| FakeDnsSnapshot.UnexpiredRestoredExactly | src/fakedns.c:742-967 | what loading restores is the unexpired entries exactly when every entry is on the clock's side of a wrap and none expires in the second of saving |
| FakeDnsSnapshot.LoadIsSafe | src/fakedns.c:832-967 | whatever bytes are loaded into whatever pool, names stay below the limit, slots in range, the counter right, and nothing is emptied |
| FakeDnsSnapshot.SafeAfterLoadExactly | src/fakedns.c:779-803 | no run of lookups after loading gives a name two addresses exactly when no kept name's chain passed a skipped entry before its slot, which can be seen when saving |
| FakeDnsSnapshot.FullSnapshotKeepsChains | src/fakedns.c:779-803 | when no entry was skipped, no run of lookups after loading gives a name two addresses |
| FakeDnsSnapshot.SkippedEntryBreaksUniqueness | src/fakedns.c:787-789 | a skipped entry can leave a hole through which a later lookup gives a name a second address |
| DnsName.WireLength | src/fakedns.c:491-521 | a name takes two bytes more on the wire than as text |
| DnsName.ParsesWire | src/fakedns.c:551-592 | the label loop reads any well-formed name that fits, in lower case, and stops right behind it |
| DnsName.EncodedIsWire | src/fakedns.c:491-521 | what is written is the wire form of the labels between the dots |
| DnsName.WireInjective | src/fakedns.c:491-521 | different names differ on the wire |
| DnsName.WrittenBackExactly | src/fakedns.c:491-521 | a name that fits is written back as it was exactly when no label holds a dot or a NUL, and the buffer is always large enough then |
| DnsName.ReadAndWrittenBack | src/fakedns.c:551-592 | reading a question's name and writing it again gives it in lower case exactly when no label holds a dot or a NUL |
| PtrName.ParsePtrName | src/fakedns.c:436-485 | a reverse name gives the address its four parts make, last one first, and is refused for its length, its suffix, or its parts |
| PtrName.ParseOctets | src/fakedns.c:459-476 | the loop over the parts ends with an address exactly when there are four and each is an octet |
| PtrName.StandardIsAccepted | src/fakedns.c:436-485 | the standard name of every address, in any mixture of cases, is read as that address |
| PtrName.AcceptedExactly | src/fakedns.c:459-476 | a name that is accepted is the standard name of its address exactly when its address part has only digits and dots and no empty part |
| PtrName.SignIsAccepted | src/fakedns.c:459-473 | a plus sign before the first octet is accepted for every address whose name leaves room for it |
| DnsQuery.EncodeDnsName | src/fakedns.c:491-521 | the encoding loop fails exactly when a label is empty or too long or the buffer too small, and stays within the buffer |
| DnsQuery.ReadName | src/fakedns.c:551-592 | the label loop, byte by byte, is the name parser |
| DnsQuery.ResponseIsWellFormed | src/fakedns.c:606-737 | a response echoes identifier and question, fits the buffer, announces as many answers as it holds, and always has the bits for "response", "recursion desired" and "recursion available" |
| DnsQuery.ProcessQuery | src/fakedns.c:528-737 | the response depends on the query's bytes alone: processing in place gives byte for byte what separate buffers give; no byte beyond the buffer's stated length changes |
| TcpRelay.DecodeMore | src/tcp_proxy.c:223-296 | decoding can be resumed where it stopped: the plaintext does not depend on how the stream is cut |
| TcpRelay.DecodeMonotone | src/tcp_proxy.c:223-296 | more bytes never change what has been decoded |
| TcpRelay.EncodedDecodes | src/tcp_proxy.c:223-296 | the decoder gives back every first payload and every sequence of further ones a peer seals |
| TcpRelay.Drain | src/tcp_proxy.c:188-221 | what has been sent is what the sends took, from the front, what is left is the rest, and the session breaks exactly when a send fails or takes nothing |
| TcpRelay.Downstream.constructor | src/tcp_proxy.c:595-626 | a relay starts with an empty buffer, before the response header |
| TcpRelay.Downstream.Consume | src/tcp_proxy.c:178-186 | consuming drops bytes from the front of the window and from nowhere else |
| TcpRelay.Downstream.OpenPayload | src/tcp_proxy.c:268-293 | opening in place puts the plaintext where its ciphertext was and leaves everything behind it intact |
| TcpRelay.Downstream.OpenNext | src/tcp_proxy.c:224-294 | one round of the loop decodes as the stream decoder does, or waits, or fails because a chunk does not open |
| TcpRelay.Downstream.ProcessServerData | src/tcp_proxy.c:223-296 | decoding goes on until there is output or no complete chunk is left, and terminates |
| TcpRelay.Downstream.WriteToClient | src/tcp_proxy.c:409-425 | sending takes from the pending plaintext what the sends take and keeps the undecoded rest |
| TcpRelay.Downstream.Compact | src/tcp_proxy.c:486-498 | compaction moves the window without changing it, and makes room whenever the window is not full |
| TcpRelay.Downstream.ReadFromServer | src/tcp_proxy.c:519-547 | there is always room to receive, so an empty recv is the end of the stream, which is clean only between chunks |
| TcpSession.Upstream.WriteToServer | src/tcp_proxy.c:427-432 | sending takes from the pending ciphertext what the sends take |
| TcpSession.Upstream.ReadFromClient | src/tcp_proxy.c:442-484 | one chunk is received, sealed with the next counter and buffered whole |
| TcpSession.Relay.constructor | src/tcp_proxy.c:595-626 | entering the relay rests on watched events with nothing sent |
| TcpSession.Relay.UpdateWatchers | src/tcp_proxy.c:361-407 | each direction is shut down once, after it has drained; a session that is not closed waits for at least one event |
| TcpSession.Relay.WriteClient | src/tcp_proxy.c:409-425 | the client is sent what the sends take of the pending plaintext; what it has been sent, what waits and what is undecoded remain the decoding of what was received |
| TcpSession.Relay.ProcessPending | src/tcp_proxy.c:434-440 | no complete chunk is left undecoded while there is nothing to send |
| TcpSession.Relay.ReadServer | src/tcp_proxy.c:500-547 | exactly the received bytes join the stream; it fails exactly when the socket is broken, the server ends inside a chunk, or a chunk does not open, and everything before that chunk has been delivered |
| TcpSession.Relay.ReadClient | src/tcp_proxy.c:442-484 | the received bytes join the client's chunks unless the socket is broken or they do not seal; what the server has been sent and what waits are the chunks, sealed in order |
| TcpSession.Relay.HandleWrite | src/tcp_proxy.c:549-558 | the socket that is writable is sent what the sends take of what waits for it, the other one nothing |
| TcpSession.Relay.HandleRead | src/tcp_proxy.c:560-575 | a readable socket is read only when the other direction has room, and exactly what it has joins its stream |
| TcpSession.Relay.Pump | src/tcp_proxy.c:577-593 | one callback puts across the sockets exactly what its sends take and its recv finds, and fails exactly for one of the reasons for a reset |
| TcpSession.Relay.AllOpened | src/tcp_proxy.c:434-440 | while a session goes on, there is something to send or every complete chunk received has opened |
| TcpSession.Relay.OnEvent | src/tcp_proxy.c:577-593 | every callback keeps the session resting, or closes it, and puts across the sockets what the event says and nothing else; it closes with a reset exactly when a send or the recv breaks, a chunk does not open, the client's bytes do not seal, or the server ends inside a chunk; a close without reset means both directions are complete |
| TcpSession.Relay.Dispatch | src/tcp_proxy.c:361-407 | a callback comes only for what a watcher waits for |
| TcpSession.Relay.RestingIsUpToDate | src/tcp_proxy.c:434-440 | with nothing to send, an open session has delivered every complete chunk received |
| TcpSession.Relay.NowIsFaithful | src/tcp_proxy.c:223-593 | between events an open session waits for exactly what its streams ask for, which is something, and has room; what was sent and what waits are the start of the decoded stream and all of the sealed chunks; with nothing waiting all complete chunks were passed on; a session closed without reset has passed on everything |
| TcpSession.RunSession | src/tcp_proxy.c:223-593 | for every sequence of callbacks, every segmentation and every pattern of partial sends: the session starts open, each moment follows from the one before by what the event's sends take and its recv finds, it is reset exactly when the event gives a reason, and at each moment the client has been sent a prefix of the decoded stream, all of it when nothing waits, and the server a prefix of the sealed chunks |
| TcpSession.EndToEnd | src/tcp_proxy.c:223-296 | while the server's stream is the start of what a peer encodes, the client has been sent the start of what it meant |
| TcpHandshake.Handshake.constructor | src/tcp_proxy.c:939-987 | the first server is the published one, or the best untried one, again and again, until one has a usable context |
| TcpHandshake.Handshake.SkipUnusable | src/tcp_proxy.c:952-977 | servers without a usable context are passed over, each at most once; with none left the session is closed |
| TcpHandshake.Handshake.SendRequestHeader | src/tcp_proxy.c:628-671 | one send of what is left of the header: all sent, part sent, or a failure that goes on to another server, and reports this one unless the error was local |
| TcpHandshake.Handshake.OnServerConnected | src/tcp_proxy.c:682-701 | an error goes on to another server, a header that is all sent starts the relay, anything else sends the header |
| TcpHandshake.Handshake.TryConnect | src/tcp_proxy.c:737-763 | a header of its own is built and the server connected to, once; what a Fast Open took counts as sent; what failed, and whether the server is to blame, is passed on |
| TcpHandshake.Handshake.GiveUp | src/tcp_proxy.c:765-792 | a failed request is given up exactly when its payload has been queued whole or the client has gone, with a reset exactly in the first case |
| TcpHandshake.Handshake.NextServer | src/tcp_proxy.c:765-800 | otherwise the next server is the selector's best untried one, and with none left the session is closed |
| TcpHandshake.Handshake.Retry | src/tcp_proxy.c:765-825 | the loop and the recursion through connecting and sending do what the rule for a failed server says, and terminate, for every retry turns to a server not tried yet |
| TcpHandshake.Handshake.OnEvent | src/tcp_proxy.c:628-735 | a timeout, an error and a writable socket each do what the state of the handshake asks for |
| TcpHandshake.RunHandshake | src/tcp_proxy.c:628-836 | every handshake is what its steps make of it; no server is connected to twice, a request with payload is queued whole to one server at most, to exactly one when it relays, only servers connected to are reported, and a session closed with a reset has queued its payload whole or turned to every server and connected to all but the unusable ones |
| TcpHandshake.QueuedIsNotReplayed | src/tcp_proxy.c:765-792 | a payload taken whole by a Fast Open that times out closes the session with the second server untried |
| ServerSelector.CandidateIsBest | src/server_selector.c:140-149 | the candidate is untried and none untried is better; there is none only when all have been tried |
| ServerSelector.IncumbentWinsTies | src/server_selector.c:140-149 | a published server that is as good as any stays the candidate |
| ServerSelector.PublishedIsMinimal | src/server_selector.c:151-179 | publishing leaves an index in range of minimal health rank, whatever was published before |
| ServerSelector.FailedServerIsLeft | src/server_selector.c:213-265 | a published server that fails is left whenever there is another |
| ServerSelector.SwitchesExactly | src/server_selector.c:151-179 | without a failure of the incumbent it is left exactly for a better rank, or, after a completed round, for a score better by more than the threshold; after a round no server of its rank beats it by more |
| ServerSelector.Selector.constructor | src/server_selector.c:772-789 | all servers start unknown, the first one published |
| ServerSelector.Selector.CandidateLocked | src/server_selector.c:140-149 | the scan in place finds the candidate |
| ServerSelector.Selector.UpdateBestLocked | src/server_selector.c:151-179 | the published index is replaced as the rule says, and nothing else changes |
| ServerSelector.Selector.ReportFailure | src/server_selector.c:213-223 | a failure counts, marks the server and republishes |
| ServerSelector.Selector.ReportSuccess | src/server_selector.c:225-235 | a success counts only if its server has not failed since it began |
| ServerSelector.Selector.RecordProbe | src/server_selector.c:250-264 | a probe stores its score, then counts as a failure or a success |
| ServerSelector.Selector.ProbeDone | src/server_selector.c:267-273 | scores may decide only when the last probe of a round is done |
| ServerSelector.PublishedAlwaysMinimal | src/server_selector.c:192-273 | after every critical section of every interleaving the published index is in range and of minimal health rank |
| ServerSelector.HealthyExactly | src/server_selector.c:181-265 | in every interleaving a server is healthy exactly when some success of it belongs to an attempt that began after its last failure |
| ProbeWindow.Window.Put | src/server_selector.c:244-248 | the ring holds the last 67 probes at most, wherever they start |
| ProbeWindow.Window.ComputeScore | src/server_selector.c:71-91 | the walk over the ring takes the samples from the oldest to the newest, each once, and scores them |
| ProbeWindow.Window.Record | src/server_selector.c:237-249 | the score after a probe is that of the last 67 probes |
| ProbeWindow.MiddleIsMedian | src/server_selector.c:96-105 | the element in the middle after sorting is the one number with at most half of them below it and more than half not above it |
| ProbeWindow.ScoreIgnoresOrder | src/server_selector.c:71-112 | a score depends on which samples there are, not on their order |
| ProbeWindow.ScoreClasses | src/server_selector.c:87-112 | no recent probe scores worst, recent failures alone score 10000, and any recent success brings the score below that, and nothing else does |
| ProbeWindow.FailureNeverImproves | src/server_selector.c:91-112 | one failure more never lowers the score of a server that has been probed |
| HashBuckets.PushKeeps | deps/uthash/uthash.h:767-786 | pushing an element keeps every chain linked both ways, counted, and holding exactly its elements |
| HashBuckets.CutKeeps | deps/uthash/uthash.h:789-801 | and so does taking one out |
| LinkedLists.Append | deps/uthash/uthash.h:278-284 | appending at the tail keeps the list linked both ways |
| LinkedLists.Unlink | deps/uthash/uthash.h:462-472 | taking the links past an element leaves the list without it, at either end or inside |
| Uthash.Table.FindInBkt | deps/uthash/uthash.h:745-764 | the scan of a chain finds the element or there is none in it |
| Uthash.Table.Find | deps/uthash/uthash.h:165-172 | a find returns exactly the element with the key, and nothing only if there is none |
| Uthash.Table.Rebucket | deps/uthash/uthash.h:849-866 | one element is moved to its new bucket without disturbing those still to be moved |
| Uthash.Table.RebucketAll | deps/uthash/uthash.h:848-868 | redistribution puts every element into exactly one of the new buckets, the right one |
| Uthash.Table.ExpandBuckets | deps/uthash/uthash.h:833-883 | doubling the buckets keeps elements, order and links, and their number a power of two |
| Uthash.Table.AddToBkt | deps/uthash/uthash.h:767-786 | adding to a bucket, with or without expansion, adds exactly that element |
| Uthash.Table.MakeTable | deps/uthash/uthash.h:212-239 | a new table holds its first element in order and none in its buckets yet |
| Uthash.Table.Add | deps/uthash/uthash.h:396-415 | adding an element with a new key puts it last in order and into its bucket, and keeps both list structures, counts and tail right |
| Uthash.Table.UnlinkFromList | deps/uthash/uthash.h:459-469 | the element leaves the order, with head and tail kept right |
| Uthash.Table.Delete | deps/uthash/uthash.h:450-477 | deleting takes out exactly that element; the last one takes the table with it |
| Uthash.Table.Iterate | deps/uthash/uthash.h:1060-1062 | iteration with a body that leaves the table alone visits the elements in order of insertion |
| Uthash.Table.Sweep | deps/uthash/uthash.h:1060-1062 | iteration with a body that deletes the current element visits every element, in order of insertion, and leaves exactly those that were not to go |
| Uthash.SweptMembers | deps/uthash/uthash.h:1060-1062 | what such a sweep leaves is the elements that were not to go |
| Lru.VictimIsChosen | src/lrucache.h:90-95 | the running choice ends with the entry, other than the new one, that was active longest ago, the oldest of several |
| Lru.Scan | src/lrucache.h:89-95 | the scan over the table computes that choice |
| Lru.Add | src/lrucache.h:86-100 | adding inserts and, over the limit, evicts that victim |
| Lru.StaysWithin | src/lrucache.h:86-100 | a table stays within its limit exactly when the limit is not zero, and never evicts what it has just added |
| Lru.SizesFor | src/udp_lrucache.c:23-31 | the table sizes are the multiples of the base size, saturated at 65535 |
| Mempool.BoundaryExact | src/mempool.c:212-227 | the boundary check accepts exactly the starts of a slab's blocks |
| Mempool.BlocksNeverOverlap | src/mempool.c:85-131 | no two blocks of a pool overlap |
| Mempool.PayloadsApart | src/mempool.c:137-146 | payloads in use overlap neither each other nor a header |
| Mempool.Pool.constructor | src/mempool.c:137-146 | a pool starts without blocks; its stride is whole cache lines and has room for header and payload |
| Mempool.Pool.ExpandBatch | src/mempool.c:85-131 | growing adds a batch of free blocks, or nothing |
| Mempool.Pool.FormatSlab | src/mempool.c:111-125 | the new blocks are chained in order in front of the free list |
| Mempool.Pool.AllocSized | src/mempool.c:172-202 | an allocation is refused exactly when it is too large, or no block is free and the pool may not or cannot grow; otherwise it gives out a block nobody has |
| Mempool.Pool.FindSlab | src/mempool.c:234-252 | the slab looked at first and the list together recognise exactly the pool's blocks |
| Mempool.Pool.Free | src/mempool.c:229-277 | a block in use becomes free; freeing anything else, twice, from inside or from elsewhere changes neither list nor counters |
| Mempool.Pool.Destroy | src/mempool.c:284-318 | the leaks reported are the blocks in use, and also allocations minus frees |
| UdpSessions.PairAdded | src/udp_proxy.c:371-411 | a new node and its session point at each other, and all others still do |
| UdpSessions.PairRemoved | src/udp_proxy.c:338-356 | closing a session removes exactly it and its node |
| UdpSessions.Udp.constructor | src/main.c:681-689 | the pools start empty |
| UdpSessions.Udp.SessionsFit | src/main.c:683-689 | the sessions in use are the entries of both tables, one fewer at least than the pool allows |
| UdpSessions.Udp.CloseIndexed | src/udp_proxy.c:338-360 | a session leaves its table, and its node and its block are freed |
| UdpSessions.ClosedExactly | src/udp_proxy.c:338-360 | closing takes out one node and its session, the key has none left, and all others stay as they were |
| UdpSessions.OnlyVictimLeaves | src/udp_proxy.c:371-411 | registering drives out nobody unless the table is full, and then exactly the entry that was active longest ago, with its session |
| UdpSessions.Udp.Register | src/udp_proxy.c:371-411 | the tables are those before with the new node and its session, and without those of the victim |
| UdpSessions.Udp.Create | src/udp_proxy.c:629-683 | a session is created unless the network or the library fails, since no pool refuses a block while tables are within their sizes; refused, it changes nothing, and created, the tables are those before with the new one registered |
| UdpSessions.Udp.Lookup | src/udp_proxy.c:294-314 | a lookup finds the node with the key, if there is one |
| UdpSessions.Udp.GetOrCreate | src/udp_proxy.c:720-744 | a known key's session is marked active and nothing else changes; a failed server's session is closed, and nothing else, before its successor is made; an unknown key gets a new one |
| UdpSessions.Udp.Touch | src/udp_proxy.c:316-322 | touching changes the time of one node |
| UdpSessions.Udp.Sweep | src/udp_proxy.c:816-840 | a sweep closes exactly the sessions idle for too long |
| UdpFlush.SwapTurns | src/udp_proxy.c:521-525 | a swap takes the next send of the socket into its group and turns the first of those passed over behind the others |
| UdpFlush.GatherStep | src/udp_proxy.c:517-526 | each round of the inner loop keeps the sends of the socket in front in their order, and behind them the others as the turns have left them |
| UdpFlush.Gather | src/udp_proxy.c:517-526 | the inner loop ends with the socket's sends in front and the turned rest behind |
| UdpFlush.TakenKeepsOrder | src/udp_proxy.c:517-526 | a gathered group has its sends in the order in which the slots held them, in any slot and after any turns |
| UdpFlush.Flush | src/udp_proxy.c:503-552 | every queued send goes out exactly once, in one group a socket, with its own socket; the first group keeps its order, and all groups do when the runs fit |
| UdpFlush.GroupsCover | src/udp_proxy.c:503-552 | the groups hold every send once |
| UdpFlush.GroupsAreOk | src/udp_proxy.c:503-552 | no two groups have the same socket, no group is empty, and each holds its own socket's sends |
| UdpFlush.LeftAscends | src/udp_proxy.c:517-526 | the sends passed over stay in order exactly when each run of sends taken is, in length, a multiple of the number passed over before it |
| UdpFlush.TwoSocketsExactly | src/udp_proxy.c:503-552 | with two sockets every group keeps its order exactly when each run of the first one's sends is, in length, a multiple of the other's sends before it |
| UdpFlush.FittingKeepsOrder | src/udp_proxy.c:503-552 | with any number of sockets every group keeps its order when the runs of each, seen against the sends of later groups, fit in the same way |
| UdpFlush.ContiguousFits | src/udp_proxy.c:503-552 | the runs fit whenever each socket's sends are contiguous |
| UdpFlush.LaterGroupTurned | src/udp_proxy.c:517-526 | four sends to two sockets come out with the second group turned around |
| UdpReplies.Replies.constructor | src/main.c:704-708 | the pool of sockets starts empty |
| UdpReplies.Replies.GetOrCreate | src/udp_proxy.c:430-484 | the socket for the address is found exactly when there is one, and made otherwise; addresses stay distinct, nothing is forgotten, what a new one displaces is put off, and a refusal means more blocks in use than a batch can bring about |
| UdpReplies.Replies.OnServerReply | src/udp_proxy.c:554-627 | the table after a batch is what its replies make of the one before, one by one; no socket is refused for want of memory, every reply is queued with the socket of its own source, every socket of before or queued is open when the queue is flushed, and afterwards those in use are those in the table |

## Left out

- The AEAD, BLAKE3 and key handling of the wire format; only overheads and the
  chunk counter are modelled.
- Sockets, `setsockopt`, epoll, signals, control messages: results of calls are
  arbitrary inputs.
- Command line, logging, thread creation and joining in `src/main.c`; only its
  pool sizes are used.
- Weak-memory effects in the wake-up protocol, see above.
- libev's other watcher kinds and its priorities: one priority, callbacks that
  start and stop timers but feed no events, time stamps as integers; descriptor
  changes (`fd_change`, `fd_reify`) would add a simpler queue of the same kind.
- The XXH3 hashes of up to 240 bytes, apart from the multiplication and one path of
  the 128-bit hash; they are parameters. 128-bit streaming shares the state and
  the code proved here. NEON, VSX, AVX-512 and big-endian forms.
- Wrap-around of entry versions (32 bits), failure epochs (64 bits) and the
  64-bit total length in XXH3 and XXH64.
- Rounding in scores: `ProbeWindow` computes with `real`. `ServerSelector` holds for
  arbitrary scores, so the two are not composed.
- `DnsQuery` takes the pool and the parser of reverse names as functions; the modules
  that model them are not plugged in.
- Reading the initial payload before connecting, and failing to allocate a relay.
- Freeing a session and the linked list of sessions of a worker: `Relay` models the
  two directions of one session.
- uthash's sort, select, clear and Bloom filter; allocation failure there ends
  the program. `hashv & (n - 1)` is written `hashv % n`, the same for a power of two.
- The reservation made on creating a slab pool is one call of `ExpandBatch`; bytes of
  payloads are not stored, only where they lie.
- Collecting idle transparent UDP sockets: the same sweep as for sessions, over one
  table.
- UdpFlush.FittingKeepsOrder: only sufficient for more than two sockets, since
  turning sends of different sockets around need not disorder any one of them, as
  with sends to sockets 0, 1, 2, 0; for two sockets it is exact
  (`TwoSocketsExactly`).
- TcpSession.RunSession: over every finite run of events, with no claim that a peer
  keeps sending or that the socket will ever be writable.
- AsyncWakeup.NoLostWakeUp: for interleavings of whole loads and stores, not for
  reorderings.
