# Storage-backed memory: a verified model

The library keeps the data of many cooperating processes larger than memory by paging each allocation to a
file of its own, under a pool of memory pages that all processes share. This project models its five hardest
parts and proves what they are for.

* **Demand paging.** Every allocation has a status byte per page (not resident, not charged, on disk, dirty),
  a protection per page, a memory image and a backing file. Faults, touches, evictions and clears move pages
  in coalesced runs. `PageTable.dfy` gives the page-at-a-time meaning of every operation, `SwapEngine.dfy` the
  loops over arrays, proved equal to it; `Transparency.dfy` and `ByteView.dfy` prove over every run that the
  application sees plain memory, also after growth; `Remap.dfy` that a remap moves contents; `FileIo.dfy` is the
  read and write loop below the paging.
* **Accounting.** `Accounting.dfy` proves that each probe announces exactly what its operation changes;
  `Process.dfy` is the process with its table of allocations and keeps the books over every call;
  `AllocationTable.dfy` is the linked list behind the table, whose two operations act on the sequence of entries as
  the process does on its table, and the search for an address.
* **Admission.** `Admission.dfy` is the choice of a victim and the admission loop with its termination;
  `PoolProtocol.dfy` is the protocol of N processes as single reads, writes, semaphore operations and signals;
  `DirtyCounts.dfy` is the dirty counter of a process between its write faults and its signal handler.
* **klmalloc.** `SizeClasses.dfy`, `FreeLists.dfy`, `ChunkTiling.dfy`, `ChunkHeap.dfy`, `BrickHeap.dfy`,
  `Grants.dfy`, `Bookkeeping.dfy` and `KlMalloc.dfy`: tags, links and headers live in a memory of words, and
  the operations are those of the source on that memory, with the chunks, blocks and grants they stand for as
  ghost state.
* **The work queue** of the asynchronous I/O helper: `WorkQueue.dfy`.

Reading conventions. Status bits keep the polarity of the source: `rsdnt` set means not resident, `chrgd` set
means not charged, `zfill` set means the page must be read from disk. Page counters are unbounded integers; in the
protocol and the allocator they are `int`, so that never going negative is something proved. What the
environment decides is a parameter: the address of a block the system hands out (`base`), stale reads of the dirty
counters (`d1`, `d2`), left-over bytes in grown memory (`stale`), how much a file call transfers (`got`).

Standing assumptions: 8-byte words and alignment; the page size is a multiple of the system page; system calls
succeed; ranges given to touch, evict and clear are not empty and lie inside the allocation; within one process a
signal is taken between calls (`PoolProtocol.dfy` and `DirtyCounts.dfy` do not assume this); a block asked of the system
is granted.

Results the code does not meet as its comments suggest, each with the exact condition under which it does:

* An eviction discharges what its probe announced if and only if some page is resident or nothing in the range is
  charged (`Accounting.EvictProbeExact`); with aggressive charging the early exit can leave pages charged
  (`Accounting.EvictProbeCanMiss`). Without aggressive charging exactly the resident pages are charged
  (`Accounting.OperationsKeepStep`), so every call keeps the books; with it, evicting a range keeps them under that
  condition only (`Process.Vmm.Evict`), and evicting everything stops at a failed assertion if and only if some
  charged entry has no resident page (`Process.Vmm.EvictAll`, `Process.Vmm.MEvictAll`). Evicting only whole
  allocations never leads there. A signal handler evicts everything, so the results on admission are about victims
  for which this does not happen.
* The admission loop counts charges, and a signalled process gives back only what its allocation table holds. If every
  charge of the other candidates is in their tables, the loop ends if and only if the request is within the free
  pages plus those charges (`Admission.AdmissionEndsExactlyWhen`). In general it ends only if the request is within
  what the tables hold (`Admission.AdmissionNeedsOffers`), and it ends within one turn per process with something in
  its table or never: never if and only if it meets a pool whose chosen victim has nothing in its table, only meta
  pages or pages not yet loaded (`Admission.EndsSoonOrNever`, `Admission.StallsOnKeptCharge`,
  `Admission.StallsOnEmptyTables`, `Admission.MetaPageStalls`). By resident memory this holds whatever is read, by
  dirty memory if the counters read change only when a victim releases.
* A write fault sets the status byte, counts the page and reports it in three steps, and signals are not blocked
  between them. As long as none has failed, the next assertion on dirty pages fails if and only if a handler sweeps
  the table before the page is counted, or gives back a sweep that took it before it is reported
  (`DirtyCounts.AssertionsExactly`, with `DirtyCounts.SweepBeforeCount` and `DirtyCounts.SweepBeforeReport` as runs
  that do); all hold in every run in which no sweep starts inside a write fault (`DirtyCounts.CountsAreSafe`).
* The eligibility test stores a 64-bit charge in an `int`. The tables of all others count in full if and only if none
  with something in it has signalling off and a charge that is a multiple of 2^32 (`Admission.OffersAreEveryOther`,
  `Admission.HiddenCharge`). Below 2^32 pages in the pool every signal is honoured (`PoolProtocol.SignalsBalance`);
  from 2^32 on there is a run in which one is not (`PoolProtocol.SignalCanBeTurnedDown`).
* The write loop stops after one call. It is right for all files if and only if that call is complete
  (`FileIo.WriteCompleteExactlyWhen`, `FileIo.ShortWriteLoses`).
* A remap leaves the memory of a new allocation without resident pages as it is. Contents arrive if that memory is
  zero or some page is resident, which holds unless growth brought other bytes in (`Remap.RemapMovesContents`,
  `Remap.SettledUnlessGrown`); location by location the exact condition is `Remap.RemapReadsExactly`, and
  `Remap.LeftOverByteSurvives` is a case where it fails. Growth brings in the status bytes that lay where the new pages
  are; these are all zero if and only if the pages they belong to are resident, charged and clean without a copy in
  the file (`PageTable.LeftOverZero`).
* The assertions in `KL_malloc` and `kl_chunk_solo` fail for two ranges of sizes up to the maximum and for no others:
  above 0xFFFFFFFFFFFFFFC8, where the size of the block does not fit a word, and from 262097 to 262112, which do not
  fit a block with their tags and yet are no larger than `FIXED_MAX_SIZE` (`KlMalloc.KlMem.Malloc`,
  `Bookkeeping.BlockSizeWraps`, `Bookkeeping.MaximumWraps`, `Bookkeeping.GapExactly`, `Bookkeeping.GapEnds`).

## Model

| member | source | states |
|---|---|---|
| `PageTable.TouchedPages` | src/api/mtouch.c:97-104 | touch and evict act on exactly the pages that share a byte with the range |
| `PageTable.ClearedPages` | src/api/mclear.c:85-98 | clear acts on exactly the pages that lie wholly inside the range |
| `PageTable.PagesInside` | src/api/mclear.c:53-60 | a range inside the allocation yields page ranges inside the allocation |
| `PageTable.CountExtremes` | src/vmm/swap_i.c:110-114 | a counter equals the number of pages exactly when all pages have the property, and zero exactly when none has; this is what the shortcuts of both swaps rely on |
| `PageTable.TouchExactly` | src/api/mtouch.c:80-108 | page by page, a touch makes exactly the pages of the range resident and charged, fetches exactly those that are only in the file, sets protection by mode, and changes no other page except that the first one under aggressive charging charges all |
| `PageTable.FaultExactly` | src/vmm/init.c:75-103 | page by page, a fault on an absent page brings in that page alone with lazy reading and every page without; a fault on a resident page makes it dirty and writable and changes nothing else |
| `PageTable.SwapOutExactly` | src/vmm/swap_o.c:113-199 | page by page, an eviction drops exactly the pages of the range, writes exactly the dirty ones and changes no other page, and does nothing if no page is resident |
| `PageTable.SwapClearExactly` | src/vmm/swap_x.c:71-85 | page by page, a clear forgets dirtiness and file copy, write-protects what was dirty and changes nothing else |
| `PageTable.StatusBits` | src/include/mmu.h:51-56 | each of the four bits of a status byte comes back from it |
| `PageTable.LeftOverZero` | src/api/realloc.c:196-204 | the memory of pages added by growth is zero if and only if the old pages whose status bytes lay there are all resident, charged and clean without a file copy |
| `SwapEngine.RunsExact` | src/vmm/swap_o.c:133-179 | the calls made to the file move every page that must move and no other, none twice and in order, and between two calls there is a page that does not move, so they are as few as can be |
| `SwapEngine.Allocation.WriteBack` | src/vmm/swap_o.c:133-179 | the sentinel-run loop makes exactly those calls for the dirty pages of the range, returns the number of pages and leaves status bytes and counters as page-at-a-time eviction does |
| `SwapEngine.Allocation.SwapOutRange` | src/vmm/swap_o.c:92-205 | the whole swap-out equals the page-at-a-time eviction of the range (or nothing when no page is resident) in status, protection, memory and file |
| `SwapEngine.Allocation.ReadIn` | src/vmm/swap_i.c:142-194 | the sentinel-run loop makes exactly those calls for the non-resident on-disk pages that are not dirty, in ghost and in-place mode, and returns the number of pages |
| `SwapEngine.Allocation.SwapInRange` | src/vmm/swap_i.c:89-219 | the whole swap-in equals the page-at-a-time loading of the range in both modes |
| `SwapEngine.Allocation.UpgradeDirty` | src/vmm/swap_i.c:203-218 | the final pass of an in-place swap-in leaves dirty pages read-write and the other pages of the range read-only |
| `SwapEngine.Allocation.SwapClearRange` | src/vmm/swap_x.c:46-85 | equals the page-at-a-time clear; dirty count falls by the dirty pages of the range, contents stay |
| `SwapEngine.Allocation.ChargeWhole` | src/api/mtouch.c:87-95 | the first touch of an uncharged allocation under aggressive charging charges every page and nothing else |
| `SwapEngine.Allocation.TouchRange` | src/api/mtouch.c:80-108 | touching a range is charging (when due) followed by loading, with counters equal to the flag counts |
| `SwapEngine.Allocation.FaultAt` | src/vmm/init.c:72-119 | one fault loads a missing page (alone, or with its allocation) or makes a clean one dirty and writable |
| `SwapEngine.Allocation.GrowTo` | src/api/realloc.c:196-333 | growth keeps status, protection, memory and file of the old pages; new pages start resident or absent by option, each with the bytes that lay there |
| `SwapEngine.Allocation.constructor` | src/api/malloc.c:136-165 | a new allocation has zero memory and the status, protection and counters its options call for |
| `SwapEngine.SwapInGood` | src/vmm/swap_i.c:175-194 | loading keeps every status byte legal: resident pages charged, dirty pages resident |
| `SwapEngine.SwapOutGood` | src/vmm/swap_o.c:135-166 | eviction keeps every status byte legal |
| `SwapEngine.GrownGood` | src/api/realloc.c:318-333 | growth keeps every status byte legal |
| `Transparency.SwapInOk` | src/vmm/swap_i.c:142-219 | loading a range leaves every page holding what it was known to hold |
| `Transparency.SwapOutOk` | src/vmm/swap_o.c:133-199 | evicting a range loses nothing: what memory held is in the file or is zero |
| `Transparency.SwapClearOk` | src/vmm/swap_x.c:71-85 | a clear leaves a wholly covered page holding its old value or zero, and other pages as they were |
| `Transparency.FaultOk` | src/vmm/init.c:72-119 | a fault changes no contents |
| `Transparency.GrownOk` | src/api/realloc.c:196-333 | growth leaves every old page holding what it was known to hold; each new page holds the bytes that lay there or zero |
| `Transparency.TwoFaultsSuffice` | src/vmm/init.c:72-119 | any access succeeds after at most two faults, in every reachable state and both modes |
| `Transparency.ReachableOk` | src/vmm/init.c:72-119 | status, protection, memory and file agree with plain memory after every run of loads, stores, faults, touches, evictions, clears and growth |
| `Transparency.EventEffects` | src/vmm/init.c:72-119 | what each event of a run does to each page: touched pages are resident, evicted ones absent, cleared ones forgotten, a fault loads or dirties its page, a store changes one byte, growth leaves old pages alone |
| `Transparency.Transparent` | src/vmm/swap_o.c:133-199 | in every run each load returns what plain memory would hold at that location |
| `Transparency.TransparentFrom` | src/vmm/swap_i.c:142-219 | the same for every run from any state that agrees with known contents |
| `Transparency.LoadReturnsLastStore` | src/vmm/swap_i.c:142-219 | a load from a page the allocation had from the start returns the last value stored there, or zero if there was none; only after a clear of that very page, and until the next store to that location, may it be zero instead |
| `Transparency.ProtectionMirrorsStatus` | src/vmm/swap_x.c:73-84 | in place, none/read/read-write is exactly not-resident/clean/dirty in all reachable states; ghost mode never grants more |
| `ByteView.HoldsIsExpect` | src/api/mclear.c:76-101 | plain memory by byte address agrees with plain memory by page and offset under the page rounding of every call |
| `ByteView.OnPagesExactly` | src/api/mclear.c:85-98 | calls by address and length become events on exactly the pages that share a byte with the range, for clear on those wholly inside it |
| `ByteView.TransparentBytes` | src/api/mevict.c:77-96 | transparency for accesses and calls given by byte address and length, growth included |
| `ByteView.FittingCallsStayInside` | src/api/mtouch.c:80-108 | a call whose bytes fit the allocation acts on pages of the allocation only |
| `Remap.RemapMovesContents` | src/api/remap.c:67-101 | after a remap each page that stands for an old page holds what the old page held, every other page zero, whatever states either side was in, provided the new allocation has a resident page or no bytes left over in memory |
| `Remap.SettledUnlessGrown` | src/vmm/swap_o.c:113-117 | that proviso holds in every state of every run in which growth brought in no bytes but zero |
| `Remap.RemapReadsExactly` | src/api/remap.c:67-101 | a location of an old page reads as it should after a remap if and only if the new allocation had a resident page, or the old page was dirty or in the file, or the byte left over is right |
| `Remap.LeftOverByteSurvives` | src/api/remap.c:77-88 | a page added by growth and never loaded still reads as the status byte that lay there after a remap of a page that held zero |
| `Remap.LoadsAfterRemap` | src/api/remap.c:67-101 | in every run after the remap, loads from pages that stand for old ones return what the old page held until stored to or cleared |
| `Remap.RemapPages` | src/api/remap.c:67-101 | evict, clear, evict, copy the on-disk bits and take over the file amount to that remapped state |
| `Remap.MarkFlags` | src/api/remap.c:81-88 | the loop takes over the on-disk bit of the old pages and changes nothing else |
| `FileIo.ReadAll` | src/vmm/swap_i.c:49-80 | however the calls are cut short, the buffer ends up with exactly the bytes asked for |
| `FileIo.WriteOnce` | src/vmm/swap_o.c:52-81 | only what the first call transferred is written |
| `FileIo.WriteOnceSuffices` | src/vmm/swap_o.c:75-77 | for one file: it holds the whole buffer if and only if the bytes the first call left out were there already |
| `FileIo.WriteCompleteExactlyWhen` | src/vmm/swap_o.c:52-81 | for all files: what the loop leaves is the whole buffer if and only if the first call transfers all of it |
| `FileIo.ShortWriteLoses` | src/vmm/swap_o.c:75-77 | whenever the first call falls short there is a file in which bytes are lost |
| `Accounting.TouchProbeExact` | src/api/mtouch.c:45-108 | a touch raises the charge by exactly what the probe announced and changes no dirty page |
| `Accounting.EvictProbeExact` | src/api/mevict.c:44-96 | an eviction lowers charge and dirty count by exactly what the probe announced if and only if some page is resident or nothing in the range is charged |
| `Accounting.EvictProbeCanMiss` | src/vmm/swap_o.c:113-117 | under aggressive charging two evictions in a row leave a charged page that the probe had announced |
| `Accounting.OperationsKeepStep` | src/vmm/swap_i.c:175-194 | without aggressive charging touch, eviction, clear and fault all keep exactly the resident pages charged |
| `Accounting.AggressiveBreaksStep` | src/api/mtouch.c:87-95 | some touch of an allocation in step charges a page that is not resident if and only if charging is aggressive |
| `Accounting.InStepReleases` | src/vmm/swap_o.c:113-117 | then an allocation is charged exactly when it has a resident page, and the early exit skips no charge |
| `Accounting.WholeEvictLeavesStuck` | src/vmm/swap_o.c:92-205 | evicting a whole allocation leaves nothing resident or dirty, and charged exactly what the early exit skipped |
| `Accounting.ClearProbeExact` | src/api/mclear.c:43-101 | a clear removes exactly the dirty pages its probe counted and no charge |
| `Process.MTouchProbe` | src/api/mtouch.c:45-74 | the loop returns the number of pages the touch will charge |
| `Process.MEvictProbe` | src/api/mevict.c:44-71 | the loop returns the charged and the dirty pages of the range |
| `Process.TouchEntry` | src/api/mtouch.c:138-155 | probe and touch: the allocation's charge grows by the probe's answer |
| `Process.EvictEntry` | src/api/mevict.c:120-126 | probe and evict: charge and dirty count fall by the probe's answer exactly under the condition of `EvictProbeExact` |
| `Process.ClearEntry` | src/api/mclear.c:120-126 | probe and clear: the dirty count falls by the probe's answer |
| `Process.Vmm.constructor` | src/vmm/init.c:188-213 | a process without allocations has its books in order |
| `Process.Vmm.MetaExactly` | src/api/malloc.c:69-84 | the meta pages of an allocation are those of the entry and exactly as many as a status array of one byte per page fills, or none by option |
| `Process.Vmm.ToSysExactly` | src/include/vmm.h:88-89 | a number of pages and its number of system pages are the same bytes |
| `Process.Vmm.AlwaysEvictable` | src/vmm/swap_o.c:113-117 | without aggressive charging every charged entry has a resident page, in every state between calls |
| `Process.Vmm.Touch` | src/api/mtouch.c:114-173 | a touch keeps counters equal to flags and the process totals equal to the sums over the table |
| `Process.Vmm.Evict` | src/api/mevict.c:102-152 | evicting a range keeps counters equal to flags, and the totals equal to the sums exactly when some page is resident or nothing in the range is charged: always without aggressive charging, and always when every charged entry has a resident page |
| `Process.Vmm.Clear` | src/api/mclear.c:107-143 | the same for a clear |
| `Process.Vmm.Segv` | src/vmm/init.c:66-119 | the same for a fault, loading or dirtying |
| `Process.Vmm.MarkDirty` | src/ipc/mdirty.c:48-69 | a write fault raises the dirty counter of its allocation and the dirty total of the process together |
| `Process.Vmm.Release` | src/ipc/mevict.c:38-55 | a release lowers charge and dirty total by what it is given and nothing else |
| `Process.Vmm.Malloc` | src/api/malloc.c:70-175 | the same for a new allocation, with meta pages charged by option |
| `Process.Vmm.Free` | src/api/free.c:57-100 | the same for giving an allocation back |
| `Process.Vmm.Grow` | src/api/realloc.c:146-333 | the same for growth |
| `Process.Vmm.EvictAll` | src/api/mevict.c:165-204 | stops at a failed assertion if and only if some charged entry has no resident page; otherwise every entry ends up with nothing resident, charged or dirty, and what is reported is what left the table |
| `Process.Vmm.MEvictAll` | src/api/mevict.c:220-250 | the same outcome, never the failed assertion without aggressive charging; on return the books are right, nothing is dirty and exactly the meta pages stay charged |
| `Process.Vmm.TouchAll` | src/api/mtouch.c:359-440 | touching everything admits the sum of the probes once and leaves every page of every allocation loaded and charged, with the books in order |
| `Process.Vmm.Check` | src/api/mcheck.c:48-109 | the run-time check, with and without its two options, decides exactly the consistency the other calls are proved to keep |
| `AllocationTable.Mmu.Insert` | src/mmu/insert_ate.c:47-62 | the entries in list order are the new one followed by those before; the list stays well formed and no entry's pages change |
| `AllocationTable.Mmu.Invalidate` | src/mmu/invalidate_ate.c:47-61 | the entries in list order are those before without this one |
| `AllocationTable.Mmu.Lookup` | src/mmu/lookup_ate.c:55-71 | the result is the first entry of the list that contains the address, and null exactly when none does |
| `AllocationTable.ContainsByPage` | src/mmu/lookup_ate.c:58-63 | an entry contains an address if and only if one of its pages does |
| `Admission.SelectVictim` | src/ipc/madmit.c:72-108 | one pass picks the largest candidate if none covers the shortfall and otherwise, among those that do, the least resident or, by option and with consistent reads, the least dirty, first on ties; with arbitrary stale reads the victim still has a charge and covers whenever any candidate does; none is picked exactly when no candidate has a charge |
| `Admission.RuleIsExact` | src/ipc/madmit.c:87-98 | the rule determines the victim uniquely |
| `Admission.Ipc.AtomicInc` | src/ipc/atomic_inc.c:43-53 | moves pages from the pool to the process, not yet in its table, conserving the total, and tracks the maximum |
| `Admission.Ipc.AtomicDec` | src/ipc/atomic_dec.c:51-69 | moves pages back, in the table or out of it before, conserving the total |
| `Admission.Ipc.Handle` | src/vmm/init.c:141-173 | an eligible victim gives back exactly what is charged in its table and keeps the rest, another gives nothing |
| `Admission.Ipc.Admit` | src/ipc/madmit.c:45-138 | for every pool, goes through the turns the rule and the handlers determine and takes the request, or gives up at a turn that changes nothing, which is where the loop has stalled; takes it only if it is within what the tables hold, and always then if the others keep nothing back; conserves the total; others keep their charge or are candidates left with what they kept; at most n-1 evictions, at most one if a candidate alone suffices |
| `Admission.AdmissionEndsExactlyWhen` | src/ipc/madmit.c:71-130 | for any stale reads, if every charge of another candidate is in its table, the loop ends, within one turn per process that can give, if and only if the request is within free pages plus eligible charges |
| `Admission.OneCoveringVictimSuffices` | src/ipc/madmit.c:99-130 | under the same condition one turn is enough when some candidate alone is charged enough |
| `Admission.AdmissionNeedsOffers` | src/vmm/init.c:155-160 | whatever is kept back, the loop can end only if the request is within free pages plus what the other candidates have in their tables |
| `Admission.EndsSoonOrNever` | src/ipc/madmit.c:71-130 | whatever is kept back, the loop ends within one turn per process that can give or never, and it never ends if and only if within those turns it meets a pool whose victim has nothing in its table; by resident memory for any reads, by dirty memory for counters that change only when a victim releases |
| `Admission.StallsOnKeptCharge` | src/ipc/madmit.c:71-130 | a victim that the rule picks and that has nothing in its table is picked in every later turn, and the pool never changes, whatever the other processes could release |
| `Admission.StallsOnEmptyTables` | src/vmm/init.c:155-160 | with no candidate having anything in its table no turn changes the pool, by resident or by dirty memory |
| `Admission.MetaPageStalls` | src/api/malloc.c:75-90 | one other process with one meta page: its charge covers the request and no turn ends the loop |
| `Admission.OffersAreEveryOther` | src/ipc/is_eligible.c:49-55 | what can be asked for is all that the other tables hold if and only if no other process with something in its table has a multiple of 2^32 charged and signalling off |
| `Admission.HiddenCharge` | src/ipc/is_eligible.c:49-55 | a pool in which the only charge is never asked for |
| `PoolProtocol.StepKeeps` | src/ipc/madmit.c:66-138 | every read, write, semaphore operation, signal and table change of any process keeps the protocol invariant |
| `PoolProtocol.StepServes` | src/ipc/madmit.c:66-138 | no step of anyone changes what a process has asked for; once it has the mutex its charge stays until the request is met and has then changed by exactly what was asked for |
| `PoolProtocol.AdmissionGrants` | src/ipc/madmit.c:66-138 | in every interleaving a process that has the mutex for a request and comes to its end is charged exactly that many pages more, through any number of signals and waits |
| `PoolProtocol.EvictionReleases` | src/ipc/mevict.c:38-55 | in every interleaving an eviction gives back exactly what it was to give back |
| `PoolProtocol.TableMoves` | src/vmm/init.c:155-160 | loading, unloading and sweeping move pages between table, admitted and released without changing a charge |
| `PoolProtocol.MainAdvances` | src/ipc/madmit.c:71-134 | every step of an application thread brings it closer to the end of its request, except reading the pool again after an answer and scanning again without a victim; a request that fits is taken at the next test |
| `PoolProtocol.HandlerAdvances` | src/vmm/init.c:141-177 | every step of a handler brings it closer to its post, and it sweeps exactly if its test holds |
| `PoolProtocol.PoolIsSafe` | src/ipc/atomic_dec.c:55-69 | in every interleaving at most one update of the pool is in progress, free pages and charges add up to the total whenever none is, and neither is ever negative |
| `PoolProtocol.SignalsBalance` | src/vmm/init.c:141-177 | in every interleaving at most one signal is outstanding, each is answered by exactly one post, nobody signals itself, and below 2^32 pages every signal is honoured |
| `PoolProtocol.SignalCanBeTurnedDown` | src/ipc/is_eligible.c:49-55 | for every pool of at least 2^32 pages there is a run in which a signalled process's test fails |
| `PoolProtocol.VictimIsStable` | src/vmm/init.c:141-142 | the charge a victim was chosen for is its charge when its handler makes the test, and the admitter is waiting for it |
| `PoolProtocol.ScanSeesOneMoment` | src/ipc/madmit.c:76-120 | from the start of a scan to the signal no step of anyone changes the pool or any charge |
| `PoolProtocol.VictimCovers` | src/ipc/madmit.c:99-117 | in every interleaving and for any stale reads a process about to be signalled has a charge and, below 2^32 pages, covers the shortfall if any other does |
| `PoolProtocol.StepKeepsBound` | src/ipc/madmit.c:71-130 | during an admission every step of anyone keeps signals sent plus charged others minus the one being answered |
| `PoolProtocol.FewSignalsPerAdmission` | src/ipc/madmit.c:71-130 | over every interleaving one admission sends at most one signal per other process charged when it got the mutex, so at most n-1, provided the charges of the others stay in their tables and sweeps are complete |
| `DirtyCounts.AssertionsExactly` | src/vmm/init.c:99-115 | as long as no assertion on dirty pages has failed, the next one fails if and only if the table is swept between the flag and the count of a write fault, or a sweep that took the page is given back between its count and its report |
| `DirtyCounts.CountsAreSafe` | src/ipc/atomic_dec.c:55-69 | in every run in which no sweep starts inside a write fault all those assertions hold, no count is negative, and at rest status bytes, table and shared counter agree |
| `DirtyCounts.StepMoves` | src/vmm/init.c:99-115 | a write fault brings one page into status bytes, table and shared counter in turn; evictions and sweeps take the same pages out of status bytes and table, and exactly those are given back later |
| `DirtyCounts.SweepBeforeCount` | src/vmm/swap_o.c:172-175 | a run in which the swap-out writes a page more than the table counts |
| `DirtyCounts.SweepBeforeReport` | src/ipc/atomic_dec.c:59-60 | for every number of dirty pages a run in which a handler gives back one more than the shared counter holds |
| `SizeClasses.Log2Is` | src/klmalloc/klmalloc.c:796-811 | the logarithm is the one number whose power of two is at most the value and whose double is above it |
| `SizeClasses.Size2BinPieces` | src/klmalloc/klmalloc.c:825-857 | the table-driven class formula agrees with eight evenly spaced ranges |
| `SizeClasses.LeastClass` | src/klmalloc/klmalloc.c:825-841 | the class of a size is the least one whose size is at least it |
| `SizeClasses.FloorClass` | src/klmalloc/klmalloc.c:1476-1488 | a free chunk is kept in the last class it is at least as large as |
| `SizeClasses.FoundIsLargeEnough` | src/klmalloc/klmalloc.c:1558-1572 | any chunk found in the class of a request or above is at least the request |
| `FreeLists.BypassLinked` | src/klmalloc/klmalloc.c:1387-1396 | unlinking any member, head, middle or tail, keeps all lists well formed and loses nobody else |
| `FreeLists.PrependLinked` | src/klmalloc/klmalloc.c:1490-1495 | prepending keeps all lists well formed |
| `FreeLists.BypassedList` | src/klmalloc/klmalloc.c:1387-1396 | unlinking takes the member out of its list, keeping the order, and leaves the other lists alone |
| `FreeLists.PrependedList` | src/klmalloc/klmalloc.c:1490-1495 | prepending puts the member first on its list and leaves the other lists alone |
| `FreeLists.ExactlyOneList` | src/klmalloc/klmalloc.c:1490-1495 | following the links from the heads meets each member exactly once, on the list of its bin only |
| `ChunkTiling.TilesExactly` | src/klmalloc/klmalloc.c:511-525 | every byte between the sentinels of a chunk block is in exactly one chunk |
| `ChunkTiling.MergeTiled` | src/klmalloc/klmalloc.c:1427-1446 | merging neighbours keeps the tiling |
| `ChunkTiling.SplitTiled` | src/klmalloc/klmalloc.c:1595-1611 | splitting keeps the tiling |
| `ChunkHeap.DeleteKeeps` | src/klmalloc/klmalloc.c:1370-1400 | deleting from a list touches links only, and the bin recomputed from the header is the one the chunk is in |
| `ChunkHeap.WordBefore` | src/klmalloc/klmalloc.c:765-785 | the word before a chunk is the sentinel exactly for the first one, and else zero exactly when the chunk before is in use and that chunk's size when it is not |
| `ChunkHeap.WordAfter` | src/klmalloc/klmalloc.c:773-785 | the word after a chunk is the sentinel exactly for the last one, and else the next header, never confused with it |
| `ChunkHeap.WholeExactly` | src/klmalloc/klmalloc.c:1452-1453 | a chunk between neighbours in use is its whole block exactly when nothing else in the block is in use |
| `ChunkHeap.AbsorbKeeps` | src/klmalloc/klmalloc.c:1418-1447 | coalescing with a free neighbour on either side keeps tiling, tags, lists and the no-two-free rule, and all other chunks in use |
| `ChunkHeap.FreedKeeps` | src/klmalloc/klmalloc.c:1473-1496 | marking free and listing re-establishes the full invariant |
| `ChunkHeap.CloseKeeps` | src/klmalloc/klmalloc.c:1452-1471 | removing a block that is one chunk leaves the rest of the heap in order |
| `ChunkHeap.OpenKeeps` | src/klmalloc/klmalloc.c:1583-1593 | a newly designated block joins the heap as one chunk |
| `ChunkHeap.PopKeeps` | src/klmalloc/klmalloc.c:1566-1572 | taking the head of a bin keeps the invariant |
| `ChunkHeap.SplitKeeps` | src/klmalloc/klmalloc.c:1595-1611 | the split keeps the invariant and every other chunk in use |
| `ChunkHeap.FreeListsExact` | src/klmalloc/klmalloc.c:1476-1496 | each free chunk is on exactly one list, once, the one of its floor class, and lists hold free chunks only |
| `ChunkHeap.UserWrite` | src/klmalloc/klmalloc.c:556-573 | whatever a caller writes between the tags of its chunk, the heap stays in order |
| `BrickHeap.TakeOk` | src/klmalloc/klmalloc.c:1328-1351 | a get yields a brick that is not in use, aligned and inside the block, and leaves the block in order, whether the brick was freed before or never used |
| `BrickHeap.GetKeeps` | src/klmalloc/klmalloc.c:1311-1351 | taking a brick keeps all brick blocks and lists in order and the contents of every other brick in use |
| `BrickHeap.PutKeeps` | src/klmalloc/klmalloc.c:1207-1253 | giving a brick back to a block that stays in use does too, listing the block if it was full |
| `BrickHeap.ReleaseKeeps` | src/klmalloc/klmalloc.c:1211-1237 | giving the last one back takes the block off its list and out of the brick heap |
| `BrickHeap.DesignateKeeps` | src/klmalloc/klmalloc.c:1288-1306 | designating a block, whatever its words were, adds it to the heap and to its list |
| `BrickHeap.LazyList` | src/klmalloc/klmalloc.c:1331-1347 | the links from the block's head run through the freed bricks, last freed first, to the frontier with its null header, which stands for all bricks never used; the packed count is freed plus never used |
| `BrickHeap.FirstTakeLeaves` | src/klmalloc/klmalloc.c:1328-1351 | the first get from a block leaves it without a next brick exactly for bricks of 8 bytes |
| `BrickHeap.BrickListsExact` | src/klmalloc/klmalloc.c:1243-1252 | a brick block is on the list of its bin, once, exactly when some but not all of its bricks are free |
| `Grants.GrantsDisjoint` | src/klmalloc/klmalloc.c:40-55 | two grants never share a byte, across bricks, chunks and solo blocks |
| `Grants.GrantsOffMetadata` | src/klmalloc/klmalloc.c:511-573 | no grant overlaps a header, footer, link, sentinel or block word |
| `Grants.AllGivenBack` | src/klmalloc/klmalloc.c:1211-1236 | with nothing granted all bins are empty and every block is undesignated |
| `Grants.ChunkShares` | src/klmalloc/klmalloc.c:1452-1471 | the block of a granted chunk holds another grant exactly if another of its chunks is in use |
| `Grants.BrickShares` | src/klmalloc/klmalloc.c:1211-1237 | the block of a granted brick holds another grant exactly if another of its bricks is in use |
| `KlMalloc.KlMem.ChunkDel` | src/klmalloc/klmalloc.c:1370-1400 | unlinks the chunk from the bin of its size |
| `KlMalloc.KlMem.CoalescePrev` | src/klmalloc/klmalloc.c:1418-1433 | afterwards the chunk before is in use or there is none; all other chunks in use keep place, size and contents |
| `KlMalloc.KlMem.CoalesceNext` | src/klmalloc/klmalloc.c:1435-1447 | the same for the chunk after |
| `KlMalloc.KlMem.ReleaseChunk` | src/klmalloc/klmalloc.c:1452-1471 | a whole block of the default size goes zeroed on the stack if there is room, any other to the system, with exact accounting |
| `KlMalloc.KlMem.ListChunk` | src/klmalloc/klmalloc.c:1472-1496 | the chunk becomes a listed free chunk, first in the bin of its floor class |
| `KlMalloc.KlMem.ChunkPut` | src/klmalloc/klmalloc.c:1406-1535 | keeps the whole heap invariant, takes exactly this chunk out of use, and changes no word of any other chunk or brick in use; its block is released if and only if nothing else in it is in use |
| `KlMalloc.KlMem.BlockAlloc` | src/klmalloc/klmalloc.c:1137-1159 | a zeroed block with `mem_total`, its maximum and the system counter updated |
| `KlMalloc.KlMem.TakeBlock` | src/klmalloc/klmalloc.c:1574-1581 | the top of the undesignated stack or, only if that is empty, a new block, exact accounting either way |
| `KlMalloc.KlMem.FindBin` | src/klmalloc/klmalloc.c:1558-1564 | the lowest non-empty bin from the class of the request up, or none |
| `KlMalloc.KlMem.AcquireChunk` | src/klmalloc/klmalloc.c:1558-1593 | a chunk not in use that is at least the request: from the lowest stocked bin of its class or above and then no block is taken, and a new one only if no such bin is stocked |
| `KlMalloc.KlMem.CarveChunk` | src/klmalloc/klmalloc.c:1595-1619 | hands out at least the request and less than the smallest chunk more, puts the rest back, and takes or gives up no block |
| `KlMalloc.KlMem.ChunkGet` | src/klmalloc/klmalloc.c:1546-1674 | null exactly when the request is too large for a block, and then nothing changes; otherwise one more chunk in use, of at least the rounded request and less than the smallest chunk more, and no word of any other grant changed; a block is taken if and only if no bin from the class up is stocked, from the system only if none is undesignated |
| `KlMalloc.KlMem.ChunkHdr` | src/klmalloc/klmalloc.c:1680-1713 | sentinels and tags of a block that is one chunk |
| `KlMalloc.KlMem.ChunkSolo` | src/klmalloc/klmalloc.c:1719-1739 | a chunk of exactly the rounded size with a new block to itself; fails the assertion, changing nothing, exactly when the block size wraps |
| `KlMalloc.KlMem.TakeBrick` | src/klmalloc/klmalloc.c:1311-1354 | the head brick of the block comes into use, all invariants kept |
| `KlMalloc.KlMem.DesignateBricks` | src/klmalloc/klmalloc.c:1278-1307 | a spare or new block becomes a listed brick block |
| `KlMalloc.KlMem.BrickGet` | src/klmalloc/klmalloc.c:1263-1359 | null exactly when the size is above the brick maximum; otherwise one more brick in use, of the size class asked for, that was not in use before, from the head block of its bin if there is one; a block is taken if and only if there is none |
| `KlMalloc.KlMem.BrickPut` | src/klmalloc/klmalloc.c:1196-1257 | exactly this brick goes out of use; its block is released, to the stack or the system, if and only if no other brick of it is in use |
| `KlMalloc.KlMem.RetireBlock` | src/klmalloc/klmalloc.c:1219-1236 | a released brick block goes on the stack with its words reset if there is room, and else to the system, with exact accounting |
| `KlMalloc.KlMem.constructor` | src/klmalloc/klmalloc.c:1064-1097 | an allocator that holds nothing satisfies the invariant |
| `KlMalloc.KlMem.Malloc` | src/klmalloc/klmalloc.c:1789-1856 | null exactly above the maximum; a failed assertion exactly for sizes whose block size wraps and for those from 262097 to 262112; otherwise a new aligned grant of the bytes asked for, in less than the smallest chunk more than the rounded size, served from memory already held whenever a bin has it, from an undesignated block next, and from the system last; the contents of every other grant are unchanged |
| `KlMalloc.KlMem.GrantSize` | src/klmalloc/klmalloc.c:689-711 | the size read back from the header of any grant is that of its brick or chunk and has room for what was asked for |
| `KlMalloc.KlMem.Free` | src/klmalloc/klmalloc.c:1888-1914 | the low bit of the header tells brick from chunk; exactly this grant ends, the contents of the others are unchanged, and the block it was in is released if and only if no other grant is in it |
| `KlMalloc.KlMem.Store` | src/klmalloc/klmalloc.c:529-573 | whatever callers write into their grants, the invariant holds |
| `KlMalloc.KlMem.LiveAllocationsApart` | src/klmalloc/klmalloc.c:40-55 | after any history of calls live allocations are aligned, pairwise disjoint and clear of all words of the allocator |
| `KlMalloc.KlMem.NoLeak` | src/klmalloc/klmalloc.c:1453-1470 | once everything granted is freed, all bins are empty and `mem_total` is the number of undesignated blocks times their size |
| `Bookkeeping.HeaderTells` | src/klmalloc/klmalloc.c:634-643 | the header before a pointer is odd exactly for bricks |
| `Bookkeeping.HeaderWords` | src/klmalloc/klmalloc.c:650-660 | bin and count come back from the packed header, also after counting up or down by one |
| `Bookkeeping.SpareTotal` | src/klmalloc/klmalloc.c:1463-1467 | the bytes held are the undesignated blocks times the default size when nothing else is held |
| `Bookkeeping.BlockSizeWraps` | src/klmalloc/klmalloc.c:618-632 | up to the maximum request chunk sizes fit a word; block sizes fit up to 0xFFFFFFFFFFFFFFC8, and above that they wrap to no more than a default block, which is what the assertion tests |
| `Bookkeeping.MaximumWraps` | src/klmalloc/klmalloc.c:597-598 | at the maximum request the block size wraps to 24 bytes |
| `Bookkeeping.GapExactly` | src/klmalloc/klmalloc.c:1843-1849 | a request goes to a block of its own and is no larger than `FIXED_MAX_SIZE` exactly for the 16 sizes below and up to it |
| `Bookkeeping.GapEnds` | src/klmalloc/klmalloc.c:1845-1845 | 262097 and 262112 are refused, 262096 and 262113 are not |
| `WorkQueue.Put` | old/asio/asio.c:175-178 | the lazily wrapped ring with the item appended |
| `WorkQueue.Take` | old/asio/asio.c:196-199 | the oldest item and the ring without it |
| `WorkQueue.Queue.Enq` | old/asio/asio.c:166-185 | the item joins the contents at the end |
| `WorkQueue.Queue.Deq` | old/asio/asio.c:187-206 | the first of the contents is returned and leaves |
| `WorkQueue.StepKeeps` | old/asio/asio.c:166-206 | every step of every thread, spurious wake-ups included, keeps the queue invariant |
| `WorkQueue.DeliveredOnceInOrder` | old/asio/asio.c:166-206 | in every interleaving the items consumers have left with, and the one a consumer still holds, are the items put in, each once and in order, and what is missing is in the ring |
| `WorkQueue.ItemsStay` | old/asio/asio.c:166-206 | an item offered stays with its producer until exactly it is put; a consumer takes the oldest item and keeps it until it leaves with exactly it |
| `WorkQueue.ThreadAdvances` | old/asio/asio.c:166-206 | a thread sleeps only in front of a full ring or an empty one, and otherwise every step brings it closer to the end, with one item put or taken |
| `WorkQueue.NotAllAsleep` | old/asio/asio.c:169-171 | no wake-up is lost: consumers asleep imply no more items than consumers woken or about to be signalled, dually for producers; so threads all asleep face an empty ring as consumers or a full one as producers |
| `WorkQueue.OneInside` | old/asio/asio.c:169-183 | at most one thread is inside the critical sections |

## Left out

- `KL_realloc` and `KL_calloc`: the in-place test of the former uses brick overhead for chunks too, so capacity does not hold there; the latter multiplies unchecked.
- KlMalloc.KlMem.BrickGet: requests of zero bytes, here and in `KlMalloc.KlMem.Malloc`: the link word of an 8-byte brick is the header of the next one, so each such request takes a block to itself (`BrickHeap.FirstTakeLeaves`), which the invariant does not cover.
- KlMalloc.KlMem.Malloc: nothing is said about the allocator after a failed assertion that comes when the block has been made; the assertions inside the chunk and brick operations are not stated one by one.
- Failing block allocation in klmalloc: a small request would then fall through to the chunk heap with chunks below the minimum.
- Locks, enabling switches and `kl_mem_destroy` of klmalloc: the model is one thread at a time.
- In klmalloc memory is a map from word addresses and the bin tables and the undesignated stack are sequences, reassigned by the methods, where the source has raw memory and arrays; reads outside the blocks held are not ruled out by the memory model itself.
- The 1532-entry class size table is modelled in closed form.
- Freed system memory is not tracked: the words of a block given back keep their values in the model until the system hands the addresses out again, zeroed.
- `sbma_mclearall`, which discharges again what each clear already discharged; the clear of one allocation is modelled.
- `sbma_realloc` when shrinking, and the re-protection under VMM_MERGE.
- `sbma_mtouch_atomic`: its range merging.
- Contents of pages added by growth are a parameter of the runs; that they are the old status bytes is `PageTable.LeftOver`, for an allocation that was never shrunk.
- Process.Vmm.Evict: under aggressive charging the books are kept only under the condition stated, because the early exit of the swap-out can skip charged pages.
- Admission.Ipc.Handle: a victim with a charged entry that has no resident page stops at the assertion of `Process.Vmm.EvictAll` and never answers; such victims are not modelled here nor in `PoolProtocol.dfy`.
- Admission.AdmissionEndsExactlyWhen: in terms of charges the condition is given for others that keep nothing back; `Admission.EndsSoonOrNever` is exact for all pools, except with dirty counters that change while nothing is released.
- PoolProtocol.FewSignalsPerAdmission: for processes that have no page charged outside their tables during the admission, without meta pages; pools below 2^32 pages.
- Remap.RemapMovesContents: not for a new allocation without resident pages whose memory holds bytes left by growth, for which `Remap.RemapReadsExactly` is exact.
- Transparency.LoadReturnsLastStore: pages added by growth, whose first contents are arbitrary; `Transparency.Transparent` covers them.
- PoolProtocol.PoolIsSafe: one application thread per process; the dirty counters are arbitrary values here, and their own updates are in `DirtyCounts.dfy`, in pages and summed over the table; the intra-process mutex is left out, which only allows more interleavings.
- SIGON gating: the eligibility test is modelled as written and nothing is claimed for processes with signalling off.
- Deadlock freedom of the protocol, and interrupted waits.
- Error and cleanup exits, file names, memory locking, mapping and semaphore set-up, timers and statistics, hooks and the lock wrappers.
- The rest of `old/`, the benchmarks, option parsing and the build.
