# Verified model of the Furina cache family

The repository describes one cache three times: a SystemC TLM model over a sparse memory
(`TLM/`), a transaction-level SystemVerilog reference model (`verif_env/src/cache/model/`) and
a cycle-level Verilog D-cache (`Design/Cache/`). Beside them stands an AXI master read adapter
with its FIFO, and a round-robin arbiter (`Design/AXI/`). This project models all of these and
proves what they are for: a CPU must not be able to tell the cache from a plain memory, the
three replacement policies must choose alike, the hardware must do exactly what its reference
model does, and the bus protocols must lose nothing.

## How the project is laid out

| module | role |
|---|---|
| `Bits`, `Geometry` | what the masks and shifts of the address arithmetic compute, with register widths |
| `CacheLines` | lines, tag look-up and dirty-line counting, shared by all three caches |
| `FlatBytes`, `PagedMemory` | the flat byte memory, and the page table that behaves like it |
| `Replacement` | the three replacement policies and which lines they keep |
| `TlmSpec`, `TlmCache`, `Testbench` | the TLM cache: byte view and invariant, the class, whole runs |
| `DCacheTypes`, `RefSpec`, `RefRefinesFlat` | the reference model as a function, and its refinement of flat memory |
| `RefModel` | the reference model as the class it is, loops and counters included |
| `DCacheSpec`, `DCacheSystem` | one clock edge of the D-cache; the D-cache between a CPU and a memory |
| `DCache` | the clocked D-cache as a class whose `Clock` is that edge |
| `DCacheRefinement`, `DCacheTheorems` | hardware refines reference model refines flat memory; protocol facts |
| `DCacheSignals` | the D-cache's pins in every cycle: when it answers, with what, and the request registers |
| `FifoContents` | all caches keep the same tags in the same ways, for every access sequence |
| `DCacheRuns` | runs that two of the cache's monitors reject |
| `DCacheLiveness`, `WriteBackBudget` | bounded service of misses; conservation of dirty lines |
| `SyncFifo`, `ReadAdapterSpec`, `ReadAdapter` | the FIFO, one edge of the read adapter, and the adapter as a class |
| `ReadAdapterProofs`, `ReadAdapterProgress` | the outstanding-read table over every run: accounting, losses, progress, error responses |
| `RoundRobin` | the arbiter |

Code that changes state in place is a class or an array method proved against a function of the
old state; what the source promises is then proved about that function over every run.

## How the main results fit together

* **TLM cache.** `CacheView` is the byte each address shows a CPU: the cached copy, else memory.
  Write-backs and fills leave it alone (`WriteBackKeeps`, `FillKeeps`), writes change exactly
  their bytes (`HitWrites`), so `HandleRequest` is one step of a flat byte memory, and
  `ServeAll` lifts that to every sequence of transfers from an empty cache over an empty paged
  memory, with unknown commands, oversized requests and failing fetches among them, and bounds
  the write-backs by the writes served and by the lines pushed out. `Effect` says besides, byte
  for byte and line for line, what one request does to lines, queues and memory. `BTransport` proves the paged memory itself flat for
  every transfer whose page offset fits 32 bits, whatever pages it crosses.
* **D-cache.** `Tracks` says where the hardware stands relative to the reference model in each
  of the four FSM states. `TickKeepsSim` keeps it over an edge with any rule-abiding CPU and
  memory, of any latency. `DCacheRefinesRef` (same arrays, same memory requests in order, same
  read data) and `DCacheRefinesFlat` (a flat word memory) follow for every run, and so do the
  answers on the CPU's pins (`ServedIsAnswered`, `AnswerData`), the request registers
  (`MemoryRegisters`), the lines held (`DCacheFollowsFifo`) and the cycle bound of a miss. What
  the reference model itself does to a hit and to a miss is spelled out by `Outcome`.
* **Read adapter.** Occupied slots are the outstanding reads plus the releases that were lost
  by meeting an allocation on the same edge. A loss leaves a read outstanding, so the losses
  never reach MAX_OSD; a full table takes no address, so the burst that ends next does free a
  slot; and so every queued command reaches the bus in bounded time (`HeadIssued`,
  `QueuedAreIssued`).

In the D-cache a CPU request counts as served at an accepted hit in IDLE or at `miss_done`:
`cpu_resp_valid` in IDLE is not gated by `cpu_req_valid` (`Design/Cache/D_Cache.v:177`). The
memory accepts when ready, answers at some later edge, holds its answer until taken, and stores
a write when its answer is taken; CPU requests are held while the cache is busy. Reads and
writes are of whole words; only `mem_rdata` during a fetch response carries data.

## Where code and promises disagree

The model follows the code. Each disagreement is a theorem.

* `TLM/Cache/cache_tlm.cpp:190,234` take the tag as `unsigned int` and shift it in 32 bits, so a
  miss fetches another line for addresses of 2^32 and up, although addresses are 64 bits wide:
  `FetchesOwnLineIff` and `MissReadsRightIff` give the exact condition, `HighAddressAliases` an
  address, and `HandleRequest` what such a request then reads and writes.
* `TLM/Cache/cache_tlm.cpp:65` checks only that a transfer is no longer than a line, which keeps
  it inside its line wherever it starts only for single bytes: `LengthCheckSufficesIff`.
* `TLM/MEM/sparse_memory.cpp:73` keeps the place in a page buffer in an `unsigned`, while page
  sizes are 64 bits wide: a transfer moves its own bytes if and only if its page offset is below
  2^32 (`FlatTransferIff`), which is always so exactly for pages of at most 4 GiB
  (`EveryAddressPlacedIff`); on larger ones two addresses share a byte (`LargePagesAlias`).
* `TLM/MEM/sparse_memory.cpp:60` answers OK for an unknown command that crosses a page, and an
  error for one that does not: both are in the contract of `BTransport`. An empty transfer at a
  page boundary splits into parts longer than itself: `EmptyTransferSplitsIff`.
* `Design/AXI/note.md:159` says a burst's last beat clears its slot. When an allocation happens
  at the same edge the later nonblocking assignment wins and the release is lost:
  `ReleasesCanBeLost` gives, for every MAX_OSD, runs that lose any number of releases below it,
  `TableExactIff` the exact condition for the table to be right, `LossLeavesASlot` the bound.
* `Design/AXI/note.md:156,223` says a completed burst's error response is reported. The register
  reads the slot's value from before the edge that writes it, and that edge releases the slot:
  without losses the response reported with `read_done` is the burst's own if and only if that
  is 0 (`ErrorReportedIff`), and after a loss it can be another burst's (`ErrorMisreported`).
* `Design/AXI/sync_fifo.v:40-46` computes `full` from a next pointer that depends on `full`:
  `FullLoop` says which values of the flag are stable, `FullLoopSettlesIff` when there is exactly
  one and it is right, `WiredEdgeIff` when an edge on a stable value is the intended one. The
  FIFO modelled in `SyncFifo` uses the intended test on the current pointers.
* `verif_env/src/cache/bind/cache_assertions.sv:128-156` wants every write request preceded, one
  cycle earlier, by the check of a dirty victim. `WriteBackFollowsCheckIff` gives the exact
  condition, and `WriteBackWaits` a run that breaks it, for every memory and every geometry that
  evicts: the memory makes the request wait.
* `verif_env/src/cache/bind/cache_assertions.sv:215-227` wants a response the CPU does not take
  to stay stable. `cpu_resp_ready` drives nothing in the cache: the next cycle responds exactly
  if the request then on the pins is resident, and to the same request the data is stable exactly
  unless a nonzero word was fetched for a write (`ResponseHeld`). `ResponseNotHeld` is a run that
  breaks it, for every geometry, memory and write to such a word.

## Model

| member | source | states |
|---|---|---|
| Geometry.CacheParams.Offset | TLM/Cache/cache_tlm.cpp:79 | the masked offset lies within a line |
| Geometry.CacheParams.Index | TLM/Cache/cache_tlm.cpp:80 | masking and shifting gives an existing set |
| Geometry.FieldsAre | TLM/Cache/cache_tlm.h:35-49 | for every geometry with index and offset below 32 bits the masks and shifts are remainder and quotients by line size and set count |
| Geometry.SplitJoin | TLM/Cache/cache_tlm.cpp:79-81 | line base plus offset rebuilds every address |
| Geometry.LineFields | TLM/Cache/cache_tlm.cpp:79-81 | the converse: taking byte i of line (tag, index) apart gives tag, index and i again |
| Geometry.VictimAddrIsLineBase | TLM/Cache/cache_tlm.cpp:168-173 | shifting and or-ing in 64 bits rebuilds the victim's line address from its tag and index |
| Geometry.FetchAddrTruncates | TLM/Cache/cache_tlm.cpp:190-202 | a miss handler, shifting a 32-bit tag, fetches the line of the truncated tag |
| Geometry.FetchesOwnLineIff | TLM/Cache/cache_tlm.cpp:190-202 | over all 64-bit addresses: the fetched line is the requested one if and only if the address is below 2^32 |
| Geometry.HighAddressAliases | TLM/Cache/cache_tlm.cpp:234-246 | with 4 sets of 16 bytes the address 2^32 makes the handlers fetch another line |
| Geometry.LinesDisjoint | TLM/Cache/cache_tlm.cpp:171-172 | lines of different tag or index share no byte, so eviction cannot touch the line about to be fetched |
| Geometry.LengthCheckSufficesIff | TLM/Cache/cache_tlm.cpp:65 | a transfer that passes the length check stays inside its line wherever it starts if and only if it is at most one byte long |
| PagedMemory.PageAlign | TLM/MEM/sparse_memory.cpp:115-117 | masking in 64 bits gives the start of the page containing the address |
| PagedMemory.SplitFacts | TLM/MEM/sparse_memory.cpp:37-62 | the page test holds exactly for transfers past the page end; the cut is strictly inside the transfer, so the recursion ends, and the rest touches one page fewer |
| PagedMemory.EmptyTransferSplitsIff | TLM/MEM/sparse_memory.cpp:37-41 | with length 0 the 64-bit end address lies on another page, and the transfer is split, if and only if the address starts a page |
| PagedMemory.BufferAddrFacts | TLM/MEM/sparse_memory.cpp:73 | the 32-bit offset names a place on the same page, the address's own if and only if its page offset is below 2^32 |
| PagedMemory.FlatTransferIff | TLM/MEM/sparse_memory.cpp:26-92 | a nonempty transfer reads, and writes, the bytes of its own addresses in every memory if and only if its page offset is below 2^32 |
| PagedMemory.EveryAddressPlacedIff | TLM/MEM/sparse_memory.cpp:73 | every 64-bit address meets that condition if and only if pages are at most 4 GiB |
| PagedMemory.LargePagesAlias | TLM/MEM/sparse_memory.cpp:73-81 | on larger pages a byte written at address 0 is read at address 2^32 |
| PagedMemory.SparseMemory.constructor | TLM/MEM/sparse_memory.cpp:4-18 | an empty page table shows zero everywhere |
| PagedMemory.SparseMemory.GetPage | TLM/MEM/sparse_memory.cpp:94-113 | finds or allocates the page; adds only that page, keeps every other, and changes no byte a reader sees |
| PagedMemory.SparseMemory.StoreInPage | TLM/MEM/sparse_memory.cpp:73-81 | copying into a page buffer, at the offset cut to 32 bits, is exactly a write to the flat memory at the address that place belongs to, no other page or byte changing |
| PagedMemory.SparseMemory.LoadFromPage | TLM/MEM/sparse_memory.cpp:73-77 | copying out of a page buffer at that offset is exactly a read of the flat memory there |
| PagedMemory.SparseMemory.BTransport | TLM/MEM/sparse_memory.cpp:26-92 | for every page size: the part on the first page moves at its 32-bit buffer offset, the rest in place; if the page offset is below 2^32 the transfer is one of a flat memory, whatever pages it crosses; latency is added once per page touched, exactly the touched pages become allocated, and the status for known and unknown commands |
| TlmSpec.WriteBackKeeps | TLM/Cache/cache_tlm.cpp:152-185 | writing a dirty line back and cleaning it keeps the invariant and every byte the CPU sees |
| TlmSpec.WriteBacksKeep | TLM/Cache/cache_tlm.cpp:152-185 | after any list of write-backs the listed lines are clean, no line became dirty, invariant and view unchanged |
| TlmSpec.FlushLeavesView | TLM/Cache/cache_tlm.cpp:152-185 | writing back every way of every set, in any order, leaves in memory alone exactly the bytes the CPU saw |
| TlmSpec.CleanCacheIsMemory | TLM/Cache/cache_tlm.cpp:152-185 | a cache without dirty lines shows exactly the memory |
| TlmSpec.FillKeeps | TLM/Cache/cache_tlm.cpp:195-223 | filling a clean queued way with a missing line keeps the invariant (unique tags, valid ways queued, clean equals memory) and every byte the CPU sees |
| TlmSpec.HandlerAddrIff | TLM/Cache/cache_tlm.cpp:187-202 | the byte a miss handler copies for an address is its own if and only if the address is below 2^32 |
| TlmSpec.MissReadsRightIff | TLM/Cache/cache_tlm.cpp:187-226 | a read miss returns the bytes of its address in every memory if and only if the address is below 2^32 |
| TlmSpec.HitReads | TLM/Cache/cache_tlm.cpp:97-100 | the bytes copied out of a hit line are the flat view's bytes |
| TlmSpec.HitWrites | TLM/Cache/cache_tlm.cpp:101-105 | overwriting part of a hit line and marking it dirty changes exactly those bytes of the view, and keeps the invariant |
| TlmCache.AllocKeepsOk | TLM/Cache/cache_tlm.cpp:135-157 | allocation keeps every valid way queued and every queue entry a way of the set |
| TlmCache.FifoStep | TLM/Cache/cache_tlm.cpp:135-157 | an access of one set leaves every set what its accesses make it under FIFO replacement |
| TlmCache.HighAddressMisses | TLM/Cache/cache_tlm.cpp:87-93 | an address of 2^32 or more is never resident while all lines hold reachable tags |
| TlmCache.CacheTlm.constructor | TLM/Cache/cache_tlm.cpp:6-30 | an empty cache over an empty memory shows zero everywhere |
| TlmCache.CacheTlm.Lookup | TLM/Cache/cache_tlm.cpp:87-93 | the search returns the first valid way with the tag, or none |
| TlmCache.CacheTlm.WriteBack | TLM/Cache/cache_tlm.cpp:159-185 | memory afterwards has the dirty line at its place, the line is clean, nothing the CPU sees changes, and write-backs plus dirty lines stay the same |
| TlmCache.CacheTlm.AllocWay | TLM/Cache/cache_tlm.cpp:135-157 | the first invalid way, queued; or, if all are valid, the head of the queue, however long, moved to its end and written back if dirty; the head is never taken from an empty queue; memory, lines, write-back count and view afterwards |
| TlmCache.CacheTlm.FetchLine | TLM/Cache/cache_tlm.cpp:195-223 | for every 32-bit tag: an answered fetch fills the way with the block at the handlers' address, a failed one changes nothing; if the tag is reachable the CPU sees no change |
| TlmCache.CacheTlm.ReadMissProc | TLM/Cache/cache_tlm.cpp:187-229 | for every address: what the way then holds and which bytes are returned; below 2^32 they are the flat memory's; a failed fetch returns the error and leaves buffer and view alone |
| TlmCache.CacheTlm.WriteMissProc | TLM/Cache/cache_tlm.cpp:231-275 | for every address: what the way then holds; below 2^32 exactly the written bytes of the view change; a failed fetch changes nothing |
| TlmCache.CacheTlm.ServeHit | TLM/Cache/cache_tlm.cpp:95-115 | a hit is one flat read or write; queues, memory and write-back count stay, and lines too but for the bytes a write changes and that line's dirty bit |
| TlmCache.CacheTlm.ServeMiss | TLM/Cache/cache_tlm.cpp:117-132 | a miss below 2^32, with eviction, refill and replacement, is one flat read or write; at any address, served or not: which way is taken, the new queue, memory changed only by a dirty victim's block, exactly then one more write-back, and only that way's line replaced or cleaned |
| TlmCache.CacheTlm.HandleRequest | TLM/Cache/cache_tlm.cpp:56-133 | for every command and address, hit or miss, with or without a failing fetch: result, status, returned bytes, the new flat view, and the whole new state of lines, queues, memory and write-back count (a refused request changes nothing, a hit no memory, a miss memory only by its dirty victim); the cache invariant and FIFO order are kept |
| TlmSpec.ServedWriteIsDirty | TLM/Cache/cache_tlm.cpp:101-105 | in that state a served write's line is resident and dirty, and other sets are untouched |
| TlmSpec.MemoryNeedsWriteBack | TLM/Cache/cache_tlm.cpp:152-185 | memory changes only if a write-back is counted, at most one a request |
| TlmCache.SetEvicts | TLM/Cache/cache_tlm.cpp:135-157 | an access pushes a line out exactly if it misses in a full set, counted from the accesses alone |
| Testbench.ServeAll | TLM/Cache/cache_tlm.cpp:56-275 | every sequence of transfers below 2^32, in-line or too long, with unknown commands and failing fetches: each gets the right result and status, reads and writes whose fetch succeeds are served with Ok, every answer and the final view are those of a flat zeroed memory; write-backs plus lines still dirty never exceed the writes served; without faults write-backs never exceed the lines FIFO pushes out; memory is untouched until the first |
| Testbench.ExpectedValues | TLM/test/testbench.h:43-59 | the testbench's map of words written predicts every read of a flat zeroed memory |
| Testbench.ReadFrom | TLM/test/testbench.h:131-143 | one word read through the cache is the word of the view, which does not change |
| Testbench.WriteTo | TLM/test/testbench.h:145-156 | one word written through the cache changes exactly that word of the view |
| Testbench.RunTests | TLM/test/testbench.h:27-111 | for every list of aligned word transfers, every page size and every geometry whose lines hold a word, the testbench counts every read as passed and none as failed |
| Replacement.PointersAgree | verif_env/src/cache/model/d_cache_model.sv:223-229 | the model's narrow pointer and the hardware counter both step modulo the number of ways, power of two or not |
| Replacement.AllocAt | TLM/Cache/cache_tlm.cpp:135-157 | after k misses queue and pointer policy both choose way k mod ways |
| Replacement.PoliciesAgree | Design/Cache/fifo_counter.v:15-31 | queue with first-invalid search, first-invalid search with pointer, and bare counter choose alike on every miss; valid ways are the first min(k, W), pointer and counter k mod W |
| Replacement.MissKeepsWindow | TLM/Cache/cache_tlm.cpp:135-157 | one more miss shifts the window of resident lines by one |
| Replacement.FifoResidency | TLM/Cache/cache_tlm.cpp:135-157 | for every access sequence the set holds the last missed lines, each in its way, pairwise distinct, and the queue lists the ways oldest first |
| Replacement.ResidentIffRecentMiss | TLM/Cache/cache_tlm.cpp:219-222 | a line is resident if and only if it is among the last min(k, W) missed lines |
| Replacement.FilledLineSurvives | TLM/Cache/cache_tlm.cpp:264-271 | a filled line survives W - 1 further misses of its set and is gone after the W-th |
| Replacement.EvictedNext | TLM/Cache/cache_tlm.cpp:135-157 | the number of misses beyond the number of ways grows exactly by misses in a full set |
| FifoContents.RefFollowsFifo | verif_env/src/cache/model/d_cache_model.sv:205-229 | after every sequence of requests each set of the reference model holds the tags FIFO replacement holds, in the same ways, with its pointer at the number of misses modulo the ways |
| FifoContents.DCacheFollowsFifo | Design/Cache/D_Cache.v:116-118 | so does each set of the clocked D-cache in every cycle, for the requests served so far |
| FifoContents.CachesAgree | TLM/Cache/cache_tlm.cpp:135-157 | a set of any cache that follows FIFO on the same accesses holds the same tags in the same ways as the D-cache, its queue's head being the D-cache's pointer once full |
| DCacheTypes.DecodeIsConcatenation | Design/Cache/D_Cache.v:48-54 | the address is (tag * sets + index) * block bytes + offset with tag most significant, the offset falls into the word, and a line address is the same with offset 0 |
| DCacheTypes.LineAddrIs | Design/Cache/D_Cache.v:119-120 | for every tag and index {tag, index, zeros} is (tag * sets + index) * block bytes |
| DCacheTypes.BlockNoSplit | Design/Cache/D_Cache.v:119-120 | every tag and index name one block, from which both are recovered |
| RefModel.DCacheModel.ResetCache | verif_env/src/cache/model/d_cache_model.sv:133-146 | the loops make every line invalid, clean and zero, and every pointer 0 |
| RefModel.DCacheModel.CheckHit | verif_env/src/cache/model/d_cache_model.sv:184-202 | finds the first valid way with the tag, way 0 and no hit if there is none; the fatal branch fires if and only if two ways match |
| RefModel.DCacheModel.SelectAllocWay | verif_env/src/cache/model/d_cache_model.sv:205-220 | the first invalid way, else the way under the pointer |
| RefModel.DCacheModel.UpdateFifoPtr | verif_env/src/cache/model/d_cache_model.sv:223-229 | steps one set's pointer with wrap, no other |
| RefModel.DCacheModel.FetchLine | verif_env/src/cache/model/d_cache_model.sv:248-260 | the whole fetched block lands, valid and clean, in one line, no other changing |
| RefModel.DCacheModel.WriteWordToCache | verif_env/src/cache/model/d_cache_model.sv:270-280 | one word of one line changes and the line becomes dirty |
| RefModel.DCacheModel.ProcessMiss | verif_env/src/cache/model/d_cache_model.sv:329-390 | state, requests (write-back only of a valid dirty victim, then the fetch), read data and write-back count of a miss |
| RefModel.DCacheModel.ProcessCpuRequest | verif_env/src/cache/model/d_cache_model.sv:283-394 | the class does what the step function of the refinement proofs does; spelled out for a hit (no request, the way's word, only that word and the dirty bit written) and a miss (way, requests with addresses and data, new line, pointer); hits, misses and write-backs counted |
| RefSpec.ServeOutcome | verif_env/src/cache/model/d_cache_model.sv:303-390 | the step function does exactly that, hit or miss by residence alone |
| RefSpec.HitIgnoresMemory | verif_env/src/cache/model/d_cache_model.sv:306-327 | the outcome of a hit does not depend on the memory's answer |
| RefRefinesFlat.ResetInv | verif_env/src/cache/model/d_cache_model.sv:133-146 | after reset the invariant holds and the cache is transparent |
| RefRefinesFlat.StepKeepsInv | verif_env/src/cache/model/d_cache_model.sv:283-394 | one request keeps unique tags, dirty implies valid, clean equals memory, and the pointer at the first empty way |
| RefRefinesFlat.StepRefinesFlat | verif_env/src/cache/model/d_cache_model.sv:283-394 | one request acts on the view as on a flat word memory |
| RefRefinesFlat.RunRefinesFlat | verif_env/src/cache/model/d_cache_model.sv:283-394 | every sequence of requests returns what a flat word memory returns and leaves the view as that memory |
| DCache.DCache.HitLogic | Design/Cache/D_Cache.v:59-83 | the hit signal is that some valid way holds the tag; the encoder gives the last such way, or 0 |
| DCache.DCache.VictimWords | Design/Cache/D_Cache.v:209-211 | the word loop copies the victim's block |
| DCache.DCache.FillWords | Design/Cache/D_Cache.v:315-333 | the fill is the response's block with a write's word put in its place |
| DCache.DCache.NextMemRegs | Design/Cache/D_Cache.v:183-223 | request flag, direction, address and data registers after the edge, all from old values |
| DCache.DCache.NextLine | Design/Cache/D_Cache.v:303-336 | an edge writes at most one line: a write hit, a cleaned victim or a fill |
| DCache.DCache.NextState | Design/Cache/D_Cache.v:246-278 | the next-state logic is the step function's |
| DCache.DCache.Outputs | Design/Cache/D_Cache.v:170-180 | ready, response valid, data and response ready in a cycle, from state, pins and residence, being those the proofs speak of |
| DCache.DCache.StepCounter | Design/Cache/fifo_counter.v:15-28 | one set's counter steps with wrap, no other |
| DCache.DCache.Clock | Design/Cache/D_Cache.v:183-338 | one edge of the class, arrays updated in place, is the step function of the refinement proofs |
| DCacheRefinement.HitTick | Design/Cache/D_Cache.v:303-306 | an accepted hit does to the arrays what the reference model does and returns its data |
| DCacheRefinement.MissDoneTick | Design/Cache/D_Cache.v:312-336 | the edge that takes the fetch response completes what the reference model does in one request |
| DCacheRefinement.TickKeepsSim | Design/Cache/D_Cache.v:116-338 | every edge under the CPU and memory rules keeps hardware and reference model in step |
| DCacheRefinement.RunTracksRef | Design/Cache/D_Cache.v:116-338 | so does every run from reset |
| DCacheTheorems.DCacheRefinesRef | Design/Cache/D_Cache.v:116-226 | in every run the reads served equal the reference model's; when idle, arrays, counters, memory and the sequence of memory requests are its; when busy, the requests are a prefix of its |
| DCacheTheorems.ArraysDuringMiss | Design/Cache/D_Cache.v:301-336 | during a miss arrays, counters and memory are the reference model's from before it; once the write-back's answer is taken the victim is clean and in memory, nothing else changed |
| DCacheSignals.ServedIsAnswered | Design/Cache/D_Cache.v:174-180 | in every cycle of every run: idle, the cache answers exactly while the request on the pins is resident; filling, exactly when the memory answers; else not; whatever is served is answered in that cycle |
| DCacheSignals.AnswerData | Design/Cache/D_Cache.v:122-126 | an answer's data is 0 for a write that hits and otherwise the flat memory's word at the address |
| DCacheSignals.MemoryRegisters | Design/Cache/D_Cache.v:183-226 | in every cycle of every run mem_wdata is the victim's block in WB and 0 otherwise, and mem_addr and mem_wr_en are the last accepted request's until the next is shown, 0 before the first |
| DCacheTheorems.DCacheRefinesFlat | Design/Cache/D_Cache.v:131-338 | in every cycle of every run the cache's view is the flat word memory after the served requests, and served reads returned its words |
| DCacheTheorems.WriteBackKeepsView | Design/Cache/D_Cache.v:206-212 | moving the victim to memory changes no block of the view |
| DCacheTheorems.ReachableStates | Design/Cache/D_Cache.v:116-223 | in every reachable cycle: unique tags, dirty implies valid, clean equals memory; the only request on the channel is the victim's in WB and the requested block's in MISS_WAIT |
| DCacheTheorems.RequestHeld | verif_env/src/cache/bind/cache_assertions.sv:263-277 | a memory request stays on the pins unchanged until accepted |
| DCacheTheorems.WriteBackFollowsCheckIff | verif_env/src/cache/bind/cache_assertions.sv:128-156 | a shown write request was preceded by the check of a valid dirty victim if and only if it was not already shown in the cycle before |
| DCacheTheorems.AcceptedAreServed | Design/Cache/D_Cache.v:103-107 | the accepted requests are the served ones, in order, each once, plus the one being served |
| DCacheTheorems.ResponseHeld | verif_env/src/cache/bind/cache_assertions.sv:215-227 | after a response the next cycle responds if and only if the request then on the pins is resident; to the same request always, with unchanged data if and only if no nonzero word was fetched for a write |
| DCacheRuns.ResponseNotHeld | Design/Cache/D_Cache.v:176-180 | for every geometry, memory and write to a nonzero word: a rule-abiding run after which the response's data changes in the next cycle |
| DCacheRuns.WriteBackWaits | verif_env/src/cache/bind/cache_assertions.sv:128-156 | for every memory and geometry with more tags than ways: a rule-abiding run with a write request on the pins that no check of a dirty victim preceded by one cycle |
| DCacheRuns.AnswerEdge | Design/Cache/D_Cache.v:312-336 | the answer to a fetch fills the counter's way with the block and the write's word, shows the fetched word, and leaves the channel quiet |
| DCacheLiveness.RankDrops | Design/Cache/D_Cache.v:246-277 | in every busy cycle a measure of state, pending request and remaining latency falls |
| DCacheLiveness.RankBound | Design/Cache/D_Cache.v:134-172 | the measure never exceeds 2 * accept + 2 * respond + 5 |
| DCacheLiveness.MissCompletes | Design/Cache/D_Cache.v:134-172 | a busy cache is idle again within that many cycles, having served exactly the pending request |
| WriteBackBudget.StepBalance | verif_env/src/cache/model/d_cache_model.sv:339-357 | per request: write-backs plus dirty lines grow by at most one, and only for a write |
| WriteBackBudget.WriteBacksWithinWrites | verif_env/src/cache/model/d_cache_model.sv:339-357 | over every run: write-backs plus lines still dirty never exceed CPU writes |
| WriteBackBudget.DCacheWriteBackBudget | Design/Cache/D_Cache.v:303-336 | the same in every cycle of every run of the clocked cache, counting the write-backs whose answer was taken |
| WriteBackBudget.TracksBalance | Design/Cache/D_Cache.v:308-310 | in every FSM state answered write-backs plus dirty lines are exactly what they are in the reference model: a victim is cleaned by the edge that takes its answer |
| SyncFifo.FlagsExact | Design/AXI/sync_fifo.v:38-46 | the wrap-bit tests are exact: full if and only if the pointers are DEPTH apart, empty if and only if 0 apart |
| SyncFifo.FullLoop | Design/AXI/sync_fifo.v:40-46 | which values of the full flag satisfy its circular definition, for every fill level |
| SyncFifo.FullLoopSettlesIff | Design/AXI/sync_fifo.v:40-46 | the circular flag has exactly one stable value, the right one, if and only if no write is pending or two places are free |
| SyncFifo.WiredEdgeIff | Design/AXI/sync_fifo.v:40-66 | on any stable value of the circular flag the write pointer moves as intended if and only if the value is right; otherwise a write has gone over the oldest entry of a full FIFO |
| SyncFifo.PointerBits | Design/AXI/sync_fifo.v:29-46 | for a power-of-two DEPTH the model's index, wrap bit and increment are the hardware's bit slices and register increment |
| SyncFifo.PointerRangeIff | Design/AXI/sync_fifo.v:29-32 | pointers of $clog2(DEPTH) + 1 bits run through exactly two turns of the memory if and only if DEPTH is a power of two |
| SyncFifo.PushAppends | Design/AXI/sync_fifo.v:48-66 | a write appends one entry across pointer wrap-around, overwriting none |
| SyncFifo.PopDrops | Design/AXI/sync_fifo.v:48-66 | a read drops the oldest entry across pointer wrap-around |
| SyncFifo.NothingLost | Design/AXI/sync_fifo.v:29-66 | over any mix of pushes and pops items leave in arrival order, none lost or repeated, never more than DEPTH inside |
| SyncFifo.SyncFifo.Outputs | Design/AXI/sync_fifo.v:83 | flags and fall-through data speak of the queue's contents |
| SyncFifo.SyncFifo.Clock | Design/AXI/sync_fifo.v:29-66 | one edge with simultaneous push and pop: a pop drops the oldest item if there is one, a push appends if fewer than DEPTH were inside before the edge |
| ReadAdapter.ReadAdapter.FreeSlot | Design/AXI/axi_master_micro_read_adapter.v:235-247 | find_free returns the first free slot |
| ReadAdapter.ReadAdapter.MatchSlot | Design/AXI/axi_master_micro_read_adapter.v:265-274 | find_by_id_comb returns the first valid slot with the ID |
| ReadAdapter.ReadAdapter.ClockSlots | Design/AXI/axi_master_micro_read_adapter.v:464-480 | the slot table after an edge, in place; an allocation drops a release of the same edge |
| ReadAdapter.ReadAdapter.ClockSlotInfo | Design/AXI/axi_master_micro_read_adapter.v:470-492 | the slots' lengths (8 bits, wrapping) and error responses after an edge, in place, set up by an allocation and refreshed by a matching beat from the old values |
| ReadAdapter.ReadAdapter.ReadWires | Design/AXI/axi_master_micro_read_adapter.v:284-303 | the wires computed from flags and searches are those the edge function uses |
| ReadAdapter.ReadAdapter.Outputs | Design/AXI/axi_master_micro_read_adapter.v:550-558 | a command is taken if the queue has room and some slot is free, a beat if the data queue has room; data is valid if there is some, and then the oldest |
| ReadAdapter.ReadAdapter.Clock | Design/AXI/axi_master_micro_read_adapter.v:365-527 | one edge of AR state machine, slots and both FIFOs is the step function of the proofs |
| ReadAdapterProofs.LastMatches | Design/AXI/axi_master_micro_read_adapter.v:265-297 | a last beat taken for an outstanding ID always matches a slot |
| ReadAdapterProofs.TickSlots | Design/AXI/axi_master_micro_read_adapter.v:454-496 | the slot balance survives every mix of allocation and release |
| ReadAdapterProofs.RunKeepsInv | Design/AXI/axi_master_micro_read_adapter.v:365-527 | the whole invariant holds in every run with a slave that ends only outstanding bursts |
| ReadAdapterProofs.SlotAccounting | Design/AXI/axi_master_micro_read_adapter.v:235-303 | in every run occupied slots equal outstanding reads plus lost releases, outstanding IDs are among the slots' IDs with multiplicity, and never more than MAX_OSD are outstanding |
| ReadAdapterProofs.TableExactIff | Design/AXI/axi_master_micro_read_adapter.v:464-480 | the slots hold exactly the outstanding IDs if and only if no release was lost |
| ReadAdapterProofs.CompletionsReported | Design/AXI/axi_master_micro_read_adapter.v:511-527 | read_done is high exactly one cycle after each completed burst, so as often as bursts completed, in any completion order |
| ReadAdapterProofs.CommandsInOrder | Design/AXI/axi_master_micro_read_adapter.v:325-401 | accepted commands are the issued ones then the queued ones; ARVALID with its payload is held until ARREADY and a slot is free for it; read data leaves in order |
| ReadAdapterProgress.Handshakes | Design/AXI/axi_master_micro_read_adapter.v:284-313 | in every run, from pins, queue lengths and the outstanding and lost counts: exactly when a command is accepted, put on the bus, issued, a beat taken, data delivered, a burst ended; error_resp changes only then |
| ReadAdapterProgress.SlotLengths | Design/AXI/axi_master_micro_read_adapter.v:470-486 | in every run a slot's length is the ARLEN it was allocated with minus the beats that matched it since, modulo 256 |
| ReadAdapterProgress.ReleasesCanBeLost | Design/AXI/axi_master_micro_read_adapter.v:464-480 | for every MAX_OSD and every k below it: a rule-abiding run after which k releases are lost and one outstanding read occupies k + 1 slots |
| ReadAdapterProgress.LossLeavesASlot | Design/AXI/axi_master_micro_read_adapter.v:464-480 | in every run fewer than MAX_OSD releases are lost, and a slot is free whenever no read is outstanding |
| ReadAdapterProgress.FreeSlotIff | Design/AXI/axi_master_micro_read_adapter.v:235-247 | a slot is free if and only if outstanding reads plus lost releases are fewer than MAX_OSD |
| ReadAdapterProgress.FreeBy | Design/AXI/axi_master_micro_read_adapter.v:284-303 | from any state with a command queued, a slot is free by the next burst end: a full table takes no address, so that release is not lost |
| ReadAdapterProgress.HeadIssued | Design/AXI/axi_master_micro_read_adapter.v:325-401 | if bursts end within c edges while reads are outstanding and ARREADY comes within a edges of ARVALID, the oldest queued command is issued within c + a + 1 edges, whatever was lost |
| ReadAdapterProgress.QueuedAreIssued | Design/AXI/axi_master_micro_read_adapter.v:325-401 | the first n queued commands are issued, in order, within n times that |
| ReadAdapterProgress.ErrorsUnreported | Design/AXI/axi_master_micro_read_adapter.v:483-525 | until a release is lost error_resp stays 0 and no occupied slot holds an error, whatever responses arrive |
| ReadAdapterProgress.ErrorReportedIff | Design/AXI/axi_master_micro_read_adapter.v:511-525 | without losses the error_resp that comes with read_done is the burst's own response if and only if that is 0 |
| ReadAdapterProgress.ErrorMisreported | Design/AXI/axi_master_micro_read_adapter.v:483-525 | a rule-abiding run after a loss in which a burst with response 0 is reported with the response of the one before it |
| RoundRobin.SearchFindsWinner | Design/AXI/round_robin_arb.v:14-29 | the search with break finds the requester nearest after the last grant |
| RoundRobin.WinnerIsFirst | Design/AXI/round_robin_arb.v:20-27 | that requester is (last + 1 + d) % N for some d below N, and going up from last + 1 nobody requests before it |
| RoundRobin.PassedOver | Design/AXI/round_robin_arb.v:20-27 | and none of (last + 1 + k) % N for k below d requests |
| RoundRobin.GrantComesCloser | Design/AXI/round_robin_arb.v:14-29 | a grant to someone else brings every waiting requester strictly closer |
| RoundRobin.BoundedWaiting | Design/AXI/round_robin_arb.v:14-29 | an index that keeps requesting is granted within as many enabled arbitrations as it is places away, at most N, for any N |
| RoundRobin.GrantedWithinN | Design/AXI/round_robin_arb.v:14-29 | so N enabled arbitrations always suffice |
| RoundRobin.NoOneOvertakesTwice | Design/AXI/round_robin_arb.v:14-29 | while an index waits no other index is granted twice |
| RoundRobin.RoundRobinArb.Clock | Design/AXI/round_robin_arb.v:14-29 | one edge grants and remembers the first requester going up from the place after the last grant, around the end, or changes nothing |

## Left out

- HandleRequest: a transfer no longer than a line must stay inside its line; beyond it the code copies past the line's buffer (`LengthCheckSufficesIff`), which has no defined outcome. After a served request at 2^32 or above, nothing is promised of later ones.
- ServeAll: transfers below 2^32, for the same reason.
- RunTests: lines of at least one word, as in the program; on shorter ones the cache refuses the word and the program compares an uninitialised variable.
- BTransport: requires a nonempty transfer that does not wrap past 2^64; what an empty transfer does is characterised only up to the split (`EmptyTransferSplitsIff`).
- MissCompletes: needs bounds on the memory's accept and response times; without them only safety is claimed.
- HeadIssued: likewise needs bounds on the slave and on the requester taking read data.
- SyncFifo.FlagsExact: the full test on the current pointers, as intended; the circular wire is `FullLoop`'s.
- SyncFifo.NothingLost: of the FIFO with that test; on the wire it holds for edges where the flag is right (`WiredEdgeIff`).
- SyncFifo.SyncFifo.Outputs: of the FIFO with that test, likewise.
- SyncFifo.SyncFifo.Clock: of the FIFO with that test, likewise.
- ReadAdapter.ReadAdapter.Clock: both FIFOs with that test, likewise; gating the write with the flag, as the adapter does, leaves the circular definition as it is.
- SystemC sockets, reports (an error report that stops the simulation is not modelled), and simulated time: memory latency is a count of pages touched.
- Payload buffers are values (`seq`), so two requests sharing one buffer are not modelled; memory pages are heap arrays, cache lines are values rather than pointers.
- Floating-point `log2`: set count, line size and page size are given by their exact exponents.
- Memory errors are a parameter of each TLM request and concern fetches; write-backs succeed, as `write_back` ignores their status.
- The write-through policy of `TLM/Cache/cache_tlm.h` is declared and never used.
- FIFO depth: any positive one; the source's are powers of two of at least 2 (`PointerBits`, `PointerRangeIff`; at 1 the index slice is empty), and its read-data FIFO is at least as deep as the slot table.
- D-cache geometry: any positive numbers of sets, ways, tags and words, of which powers of two are the source's case; word contents are opaque.
- Reset is the initial state of a run, not an event inside it.
- The delay counter of `Design/memory_model/configurable_delay_mem.sv`: the memory is any device that keeps the handshake rules, with any latency of at least one cycle.
- `Design/Cache/I_cache.v`, a read-only subset of the D-cache; the AXI write adapter, `ai.v`, the bridge and the top-level adapter wiring.
- UVM components, scripts, Makefiles, AHB interfaces and clock gating.
