# A verified model of the BSG manycore runtime

The host runtime of the BSG manycore (HammerBlade) places and runs tile groups on pods of tiles, translates endpoint
virtual addresses (EVAs) into network physical addresses (NPAs), moves data to and from the device over the network and
by DMA, and allocates device memory. This project models those parts in Dafny and proves what they promise;
`dafny verify dfyconfig.toml` checks all of it.

| module | part of the runtime |
|---|---|
| `Bits`, `Quotients`, `Wrappers` | unsigned machine arithmetic by recursion on bits, and what it has to do with division; optional values and error codes |
| `Geometry` | the configuration, pods and tiles, DRAM banks, scans of rectangles |
| `Eva` | EVA to NPA translation and back |
| `Region` | segments, and writing, reading and setting a range of EVAs |
| `RemoteLoad` | the out-of-order remote-load engine |
| `MemoryManagement` | the first-fit allocator with lazy coalescing |
| `TileGroups`, `GroupMemory`, `GroupRuns` | the tile-group scheduler of a pod as values: operations and invariants of tiles and kernels, of device memory, and over whole runs |
| `DeviceRuns` | the pods of a device as values: where finish packets come from, and the execution loops over every sequence of packets |
| `FinishSignal` | the EVA that a group's tiles are given for its finish packet |
| `Cuda` | the scheduler as the runtime has it: pods with tiles, a growing queue, kernels and an allocator; the execution loops |
| `VCache` | victim caches and whole-pod sweeps |
| `DmaMap`, `DmaLocation`, `DmaBuffer` | cache to memory bank to physical address; the same worked out as numbers; copies into memory buffers |
| `PodDma` | DMA jobs behind the caches, down to the memory buffers |
| `Loader` | the ELF segment loader |
| `Transmit` | the software copy of the transmit vacancy on AWS |

`Geometry.GoodConfig` collects what the runtime relies on without checking it: pod heights are powers of two, pod widths
are at least 1 and at most the width of the tile field (they need not be powers of two), pods fit the 8-bit coordinates,
the host is on no row of DRAM banks south of a pod, and stripes, sets, ways and blocks are powers of two.

The parts that change state step by step are classes with `modifies` clauses and loops, each proved equal to a function on
values; the theorems are lemmas about those functions. Machine integers wrap where the C++ types do. Formats are stated a
second time as sums of numbers, apart from the shifts and masks that compute them: `GlobalNames`, `GroupNames`,
`LocalNames` and `GlobalRemoteValue` for EVAs, `WayAddrValue` for tags, `PermutationBits` for physical addresses. For the
shipped machine `ShippedEva` follows a DRAM EVA down to the byte of its memory.

The environment enters as follows. The network of the load engine is a map of answers that may be delivered in any order,
refuse any finite number of sends, or be faulty (`Network.reliable`, `honest`). Victim caches and their commands are given
by `VCache.CacheSystem.Send` and `Load`, with an arbitrary victim on a miss. The device finishes groups in any order:
`GroupRuns.AnyOrder` and `DeviceRuns.AnyOrderOfPods` quantify over all orders, and the loops of `Cuda.Device` take an
arbitrary finite sequence of packets, and wait when it runs out. Hardware drains the transmit FIFO word by word at any moment
(`Transmit.Schedule`).

## What the code does that its documentation does not say

- `hb_mc_device_pod_malloc` stores the 64-bit result of the allocator in 32 bits and then compares it with the 64-bit
  null, so it never reports that memory is exhausted: the caller gets the address 0xFFFFFFFF. A kernel without arguments
  is then launched with that address; one with arguments fails when they are copied. On every heap the caller gets the
  address of its new block if and only if the first block with room starts below 0xFFFFFFFF (`PodMallocExact`).
- The heap takes all of DRAM but starts behind the program, so on the shipped machines it reaches beyond 2^32
  (`ShippedHeap`, `ShippedHeapWraps`). A block from there is reported modulo 2^32, at an address where no block starts, and
  cannot be freed (`HighBlockIsLost`). An address can be handed out twice if and only if the heap has at least one alignment
  unit more than 2^32 bytes (`RepeatsExactly`).
- A launch fails if and only if the program does not know the kernel, or the kernel has arguments and no free block has room
  for them (`LaunchableExact`); with a stock of memory for all waiting groups none does (`StockedPass`, `StockLasts`).
- A request within one alignment unit of 2^64 bytes wraps to zero, and a block without bytes enters the busy list
  (`AllocKeepsValid`).
- A control-register EVA reports four bytes of which only the first has an EVA that translates (`SegmentHonesty`); whole
  words still work (`SegmentBytes`).
- The checks of the two translation directions bound a DRAM EPA by different sizes (`EvaRoundTrip`, `NpaRoundTrip`).
- The remembered shape of a launch pass starts as (0, 0), so a waiting group of that dimension is skipped until some other
  shape fails (`SkipExact`); without such groups skipping changes nothing (`SkipHarmless`).
- The EVA for a finish packet has 16 bits for the address at the host. From the 1025th group of a grid on the address does
  not fit and runs into the column, so the packet goes elsewhere (`SignalReachesHost`, `LateSignal`).
- The kernel of an empty grid is never cleaned up, whatever runs afterwards (`ReleasedOnce`).
- The test-memory bank table reuses slots when there are fewer than 32 channels (`X4Y4TestInjective`).
- A free list of several blocks refuses a request for the whole heap although all of it is free (`WholeHeapRequest`,
  `UncoalescedFails`).
- An executable segment without file bytes makes the load fail, because the tag-bit check looks at the address before the
  instruction cache. When all segments can be loaded, that is the only reason to fail (`TextDecides`, `BareTextFails`).
- The finish-packet loop indexes the pods by a signed number from the packet without checking it. `SourceIndex` says which
  number that is for every source, and `SourceInRange` for which sources it stays inside the array of pods; it is negative
  for cores in the column west of all pods. The loops of the model stop there with the verdict `Undefined`.
- DMA does not compare an EPA with the bank size: past its end a bank continues as the next one (`PastTheBank`). Which EVAs
  stay inside is decided by `RangeInBanks`; on the shipped layout all do (`ShippedLayout`, `AlwaysInBanks`).
- The loads of one transfer are numbered in 32 bits. Of more than 2^32 words those past the first 2^32 go to the slots at
  the start, and the slots past 2^32 are not written (`ReadMemInternal`).

## Model

| member | source | states |
|---|---|---|
| `Geometry.ScanStep` | libraries/bsg_manycore_coordinate.h:236-252 | a step of `foreach_coordinate` passes exactly the cell it stands on and lands on a cell or stops behind all of them |
| `Geometry.IndexBijection` | libraries/bsg_manycore_coordinate.h:179-186 | coordinate to index to coordinate is the identity and the index is within the area |
| `Geometry.IndexBijectionBack` | libraries/bsg_manycore_coordinate.h:179-186 | index to coordinate to index is the identity and the coordinate is within the dimension |
| `Geometry.BigBladeIsGood` | machines/pod_X4Y4_ruche_X16Y8_hbm/Makefile.machine.include:40-124 | the shipped machine with 4x4 pods of 16x8 tiles meets every precondition in `GoodConfig` |
| `Geometry.OriginValue` | libraries/bsg_manycore_config_pod.h:69-76 | the vcore origin and both bank rows of a pod lie where every other pod field from 1 on begins, without wrap-around |
| `Geometry.PodOfMember` | libraries/bsg_manycore_config_pod.h:170-234 | the pod of a core or bank inverts the vcore origin; cores and north and south banks are classified as such |
| `Geometry.PodDramInverse` | libraries/bsg_manycore_config_pod.h:259-313 | bank number `k` of a pod is a bank of that pod with number `k` |
| `Geometry.DramOfDramId` | libraries/bsg_manycore_config_pod.h:236-257 | the bank number is in range and `hb_mc_config_dram` maps it back to the coordinate |
| `Geometry.DramIdOfDram` | libraries/bsg_manycore_config_pod.h:288-313 | every number in range is the number of a bank of an existing pod |
| `Geometry.DramIteration` | libraries/bsg_manycore_config_pod.h:96-144 | the bank iterator stands on bank `k` after `k` steps and stops after the last |
| `Geometry.DramIdsDiffer` | libraries/bsg_manycore_config_pod.h:236-257 | banks of any two pods have different numbers |
| `Geometry.DramIdValue` | libraries/bsg_manycore_config_pod.h:236-257 | bank numbers run through the pods column by column, in a pod through the north row and then the south row |
| `Geometry.SizesValue` | libraries/bsg_manycore_config.h:293-370 | cache size, number of banks and DRAM size as products |
| `Geometry.DramBitsValue` | libraries/bsg_manycore_eva.cpp:379-387 | with DRAM a bank address has one bit more than configured; without, exactly the bits that number the bytes of a cache |
| `Eva.DramTranslation` | libraries/bsg_manycore_eva.cpp:396-587 | a DRAM EVA is its stripe offset, column, north/south bit and top bits; it translates to that bank and EPA exactly when the column exists and the EPA fits the bank |
| `Eva.DramTranslationBack` | libraries/bsg_manycore_eva.cpp:758-798 | the way back composes the same fields, dropping EPA bits above the DRAM bit |
| `Eva.DramEvaInjective` | libraries/bsg_manycore_eva.cpp:535-587 | two DRAM EVAs of one pod that reach the same NPA are equal |
| `Eva.DramSourceIndependent` | libraries/bsg_manycore_eva.cpp:535-587 | DRAM results depend on the source only through its pod |
| `Eva.EvaRoundTrip` | libraries/bsg_manycore_eva.cpp:944-966 | for DRAM EVAs: EVA to NPA to EVA is the identity on an accepted one if and only if its EPA passes the size check of the way back |
| `Eva.NpaRoundTrip` | libraries/bsg_manycore_eva.cpp:600-622 | for NPAs that the DRAM check takes: NPA to EVA to NPA is the identity if and only if the NPA is on a bank row of the target's pod and its EPA fits the top field and the bank |
| `Eva.RemoteRoundTrip` | libraries/bsg_manycore_eva.cpp:845-966 | for the NPAs of host and cores: NPA to EVA to NPA is the identity if and only if both coordinates are below 128 and the EPA lies in data memory |
| `Eva.GlobalRemoteValue` | libraries/bsg_manycore_eva.cpp:845-866 | the EVA of such an NPA as a sum: bit 30, the row in steps of 2^23, the column in steps of 2^16, the EPA |
| `Eva.HostFields` | libraries/bsg_manycore_eva.cpp:845-890 | the EVA of a host NPA shows the host's EPA, column and row if and only if the EPA is below 2^16 |
| `Eva.EvaExists` | libraries/bsg_manycore_eva.cpp:944-966 | an NPA has an EVA for a tile if and only if the DRAM check takes it, it is the host's, or it lies in the data memory of the tile or of a core |
| `Eva.GlobalNames` | libraries/bsg_manycore_eva.cpp:286-330 | which tile, byte and length every global EVA names, or that it does not translate |
| `Eva.GroupNames` | libraries/bsg_manycore_eva.cpp:217-280 | the same for every group EVA, relative to the origin of the group, with the range check |
| `Eva.LocalNames` | libraries/bsg_manycore_eva.cpp:185-211 | the same for every EVA below the group bit |
| `Eva.BigBladeDram` | libraries/bsg_manycore_eva.cpp:396-587 | on the shipped machine every DRAM EVA translates; bank, EPA and length as numbers |
| `Region.SegmentHonesty` | libraries/bsg_manycore_eva.cpp:98-134 | a translation reports at least one byte, and its bytes are contiguous if and only if the EVA is no control register |
| `Region.SegmentBytes` | libraries/bsg_manycore_eva.cpp:600-622 | the bytes from an aligned EVA on lie where its segment says, control registers included |
| `Region.DramBytesDistinct` | libraries/bsg_manycore_eva.cpp:535-587 | distinct DRAM EVAs of a source lie at distinct physical bytes |
| `Region.RangeBytesDistinct` | libraries/bsg_manycore_eva.cpp:1105-1148 | distinct bytes of a mapped range lie at distinct physical bytes, whatever region it is in, and from a core even if it wraps past 2^32 |
| `Region.LastIsOnly` | libraries/bsg_manycore_eva.cpp:1105-1148 | a range that does not wrap, or is translated from a core, does not meet itself |
| `Region.Device.WriteMem` | libraries/bsg_manycore.cpp:940-975 | succeeds exactly for whole words at an accepted address and then writes exactly those bytes |
| `Region.Device.MemSet` | libraries/bsg_manycore.cpp:985-1021 | the same for setting bytes |
| `Region.Device.ReadMem` | libraries/bsg_manycore.cpp:1181-1206 | succeeds exactly for whole words at an accepted address and returns the bytes there, although answers arrive in any order; contents up to 2^32 words |
| `Region.Device.EvaWrite` | libraries/bsg_manycore_eva.cpp:1105-1148 | succeeds exactly on mapped ranges of whole aligned words, also if the EVA wraps; then the range holds the data, the last byte where a range meets itself, and nothing else changed, across stripes, columns and rows |
| `Region.Device.EvaMemset` | libraries/bsg_manycore_eva.cpp:1300-1339 | the same for setting a range |
| `Region.Device.EvaRead` | libraries/bsg_manycore_eva.cpp:1204-1248 | succeeds on the same ranges and returns the bytes of the range |
| `Region.WriteThenRead` | libraries/bsg_manycore_eva.cpp:1105-1248 | reading back a written range returns what was written |
| `Region.ViewAfterWrite` | libraries/bsg_manycore_eva.cpp:1105-1148 | any EVA reads the written byte if it shares a physical byte with the range, and its old byte otherwise |
| `Region.OtherDramKept` | libraries/bsg_manycore_eva.cpp:1105-1148 | a DRAM write leaves every DRAM EVA outside the range unchanged |
| `Region.LocalByteIsGlobalByte` | libraries/bsg_manycore_eva.cpp:185-330 | a byte of a tile has a local and a global EVA, both to that tile, so outside DRAM a write does change other EVAs |
| `Region.GlobalByte` | libraries/bsg_manycore_eva.cpp:301-330 | a global EVA reaches its byte in the tile whose column and row it holds, from every tile |
| `Region.GroupByte` | libraries/bsg_manycore_eva.cpp:232-280 | a group EVA reaches its byte in the tile at that distance from the origin, if and only if the tile passes the range check |
| `Region.SecondTileOfGroup` | libraries/bsg_manycore_eva.cpp:248-251 | on the shipped machine EVA 0x20040000 of a group at (16, 8) is byte 0 of tile (17, 8) |
| `RemoteLoad.RequestWords` | libraries/bsg_manycore.cpp:1067-1101 | requests words while ids are free and the network takes them; free and in-flight ids partition the ids, in-flight requests never exceed the cap, and a round without progress means that the network refused |
| `RemoteLoad.CollectResponses` | libraries/bsg_manycore.cpp:1103-1140 | stores every outstanding answer in the slot of its request, whatever the order |
| `RemoteLoad.ReadMemInternal` | libraries/bsg_manycore.cpp:1039-1150 | over a reliable network it succeeds exactly when every address is accepted; over any run in which requests were answered properly every slot holds the value of a request with its 32-bit number, so up to 2^32 words slot `i` holds the value at address `i` |
| `RemoteLoad.DeliveredExactly` | libraries/bsg_manycore.cpp:1061-1142 | up to 2^32 words a slot stands for one request only |
| `RemoteLoad.SendKeepsBooks` | libraries/bsg_manycore.cpp:1067-1101 | sending moves one id from the stack into the network and keeps the bookkeeping |
| `RemoteLoad.ReceiveKeepsBooks` | libraries/bsg_manycore.cpp:1103-1140 | an answer in any order moves its id back and fills the slot of its request |
| `MemoryManagement.AllocEffect` | libraries/bsg_manycore_memory_manager.cpp:43-74 | an allocation is aligned, inside the heap, entirely free before, a new key of the allocation map, and keeps the invariant |
| `MemoryManagement.RoundUpAligned` | libraries/bsg_manycore_memory_manager.cpp:45-51 | a request becomes the least multiple of the alignment that covers it, one unit if it is empty |
| `MemoryManagement.AllocKeepsValid` | libraries/bsg_manycore_memory_manager.cpp:43-74 | allocation keeps the invariant if and only if the rounded request fits 64 bits or nothing is free |
| `MemoryManagement.FreeEffect` | libraries/bsg_manycore_memory_manager.cpp:77-91 | freeing keeps the invariant and removes exactly the given allocation |
| `MemoryManagement.CoalesceEffect` | libraries/bsg_manycore_memory_manager.cpp:95-117 | coalescing keeps the covered addresses and sizes, and leaves a sorted list in which no two blocks touch |
| `MemoryManagement.TilesMeansDisjoint` | libraries/bsg_manycore_memory_manager.cpp:27-34 | under the invariant any two blocks, free or busy, are disjoint and inside the heap |
| `MemoryManagement.Conservation` | libraries/bsg_manycore_memory_manager.cpp:43-91 | the free size and the busy sizes add up to the heap |
| `MemoryManagement.AllocComplete` | libraries/bsg_manycore_memory_manager.cpp:43-74 | on a coalesced list an allocation fails if and only if no run of free bytes is long enough |
| `MemoryManagement.CoalescedWhole` | libraries/bsg_manycore_memory_manager.cpp:95-117 | a coalesced heap without allocations is one block |
| `MemoryManagement.WholeHeapRequest` | libraries/bsg_manycore_memory_manager.cpp:43-91 | on every fully free heap a request for all of it succeeds if and only if the free list is one block and the size is a multiple of the alignment |
| `MemoryManagement.UncoalescedFails` | libraries/bsg_manycore_memory_manager.cpp:77-91 | a reachable fully free heap below the threshold that refuses a request for all of it |
| `MemoryManagement.FreeCoalesces` | libraries/bsg_manycore_memory_manager.cpp:77-91 | a free appends its block; from the fifth free block on the list is left coalesced |
| `MemoryManagement.RunValid` | libraries/bsg_manycore_memory_manager.cpp:27-117 | the invariant holds after every sequence of allocations and frees |
| `MemoryManagement.AllocTail` | libraries/bsg_manycore_memory_manager.cpp:43-74 | an allocation starts no higher than the untouched end of the heap, and moves that end up by at most the rounded request |
| `MemoryManagement.FreeTail` | libraries/bsg_manycore_memory_manager.cpp:77-117 | freeing, with or without coalescing, never moves the untouched end up |
| `MemoryManagement.MemoryManager.Allocate` | libraries/bsg_manycore_memory_manager.cpp:43-74 | the first-fit loop changes the lists as the specification says |
| `MemoryManagement.MemoryManager.Release` | libraries/bsg_manycore_memory_manager.cpp:77-91 | the same for freeing |
| `MemoryManagement.MemoryManager.CoalesceFree` | libraries/bsg_manycore_memory_manager.cpp:95-117 | the in-place cursor loop terminates with the merged sorted list |
| `MemoryManagement.MemoryManager.FindBusy` | libraries/bsg_manycore_memory_manager.cpp:121-136 | the first busy block that starts at the address |
| `MemoryManagement.MemoryManager.Lookup` | libraries/bsg_manycore_memory_manager.cpp:151-164 | that block, or the null pair when there is none |
| `TileGroups.FirstFitComplete` | libraries/bsg_manycore_cuda.cpp:1453-1528 | first fit finds a place if and only if an all-free placement exists, and then the least one in scan order |
| `TileGroups.CanStartInside` | libraries/bsg_manycore_cuda.cpp:1444-1466 | the scan visits exactly the places at which the rectangle lies inside the mesh |
| `TileGroups.FirstFitIsFirst` | libraries/bsg_manycore_cuda.cpp:1466-1528 | whenever some rectangle inside the mesh is free, the one taken is at or before it, column by column |
| `TileGroups.PlacedKeepsTiles` | libraries/bsg_manycore_cuda.cpp:1491-1528 | placing a group at a free placement keeps: busy tiles are exactly the disjoint rectangles of active groups inside the mesh |
| `TileGroups.CompletedKeepsTiles` | libraries/bsg_manycore_cuda.cpp:1533-1561 | freeing the rectangle of an active group keeps it |
| `TileGroups.CompletedKeepsKernels` | libraries/bsg_manycore_cuda.cpp:1326-1330 | a completion keeps the reference counts equal to the unfinished groups, and cleans up at the last one |
| `TileGroups.PassKeeps` | libraries/bsg_manycore_cuda.cpp:1633-1666 | on any heap a launch pass keeps tile and kernel invariants; groups at most become active, tiles at most become busy, allocations at most grow |
| `TileGroups.CompletedKeeps` | libraries/bsg_manycore_cuda.cpp:1788-1806 | on any heap a completion keeps tile and kernel invariants, frees exactly the tiles of its group, and leaves one unfinished group less |
| `TileGroups.EnqueuedKeeps` | libraries/bsg_manycore_cuda.cpp:1339-1422 | on any heap enqueuing a grid keeps tile and kernel invariants and adds one unfinished group per coordinate |
| `TileGroups.LaunchStep` | libraries/bsg_manycore_cuda.cpp:1565-1607 | placing and launching a group keeps tile and kernel invariants; it asks for four bytes for each argument, modulo 2^32, succeeds if and only if the kernel is known and its arguments are none or get an aligned block, and otherwise reports which of the two is missing |
| `TileGroups.EveryCoordinateOnce` | libraries/bsg_manycore_cuda.cpp:1412-1418 | every coordinate of a grid is the id of exactly one group |
| `TileGroups.EnqueuedGroup` | libraries/bsg_manycore_cuda.cpp:1276-1422 | what enqueuing appends: group after group column by column, with its fields and finish address, one kernel with as many references, the next grid number modulo 256; all else stays |
| `TileGroups.FinishEpasDiffer` | libraries/bsg_manycore_cuda.cpp:255-260 | the groups of a grid have distinct finish addresses as long as these do not wrap |
| `FinishSignal.SignalReachesHost` | libraries/bsg_manycore_cuda.cpp:346-358 | the EVA that a tile gets for its finish packet names the host and the finish address if and only if fewer than 1024 groups precede the group in its grid |
| `FinishSignal.FirstSignal` | libraries/bsg_manycore_cuda.cpp:1292-1293 | on the shipped machine it is 0x4010F000 for group 0 |
| `FinishSignal.LateSignal` | libraries/bsg_manycore_cuda.cpp:255-260 | and for group 1024 of a row 0x40110000, address 0 of column 17 |
| `GroupMemory.PodMallocExact` | libraries/bsg_manycore_cuda.cpp:1090-1116 | on every valid heap the caller gets the address of a new block if and only if the first block with room starts below 0xFFFFFFFF; without room it gets 0xFFFFFFFF and success |
| `GroupMemory.HighBlockIsLost` | libraries/bsg_manycore_cuda.cpp:1107-1116 | in a heap of less than 2^32 bytes and one alignment unit a block from beyond 2^32 is reported where no block starts, and freeing that address does nothing |
| `GroupMemory.WordsDiffer` | libraries/bsg_manycore_cuda.cpp:1107-1114 | in such a heap no two live blocks have the same 32-bit address |
| `GroupMemory.LongHeapRepeats` | libraries/bsg_manycore_cuda.cpp:1107-1114 | in every larger fresh heap three requests, for one alignment unit, the rest of 2^32 bytes, and one unit, make two live blocks get one address |
| `GroupMemory.RepeatsExactly` | libraries/bsg_manycore_cuda.cpp:1107-1114 | from a fresh heap some requests make two live blocks share a 32-bit address if and only if the heap has at least 2^32 bytes and one alignment unit |
| `GroupMemory.ShippedHeapWraps` | libraries/bsg_manycore_cuda.cpp:186-195 | in the shipped heap of 2 GiB a block beyond 2^32 is reported at address 0 |
| `GroupMemory.LaunchMemory` | libraries/bsg_manycore_cuda.cpp:1572-1584 | a launch keeps argument blocks allocated and distinct if and only if its block starts below 0xFFFFFFFF; then the block has four bytes for each argument, for fewer than 2^30 arguments, and other allocations are kept |
| `GroupMemory.PassMemory` | libraries/bsg_manycore_cuda.cpp:1633-1666 | a launch pass keeps argument blocks allocated and distinct, and all other allocations, as long as it hands out low blocks |
| `GroupMemory.CompletedMemory` | libraries/bsg_manycore_cuda.cpp:1307-1313 | a completion frees exactly its argument block |
| `GroupMemory.PassBudget` | libraries/bsg_manycore_cuda.cpp:1633-1666 | if the arguments of all waiting groups fit behind the memory in use and below 0xFFFFFFFF, a launch pass hands out low blocks only and this stays so |
| `GroupMemory.LaunchableExact` | libraries/bsg_manycore_cuda.cpp:1565-1607 | on a valid heap with word alignment a launch succeeds if and only if the kernel is known and, counting four bytes for each argument modulo 2^32, there are none or a free block has room for them |
| `GroupMemory.StockedPass` | libraries/bsg_manycore_cuda.cpp:1633-1666 | if the kernels of all waiting groups are known and their arguments fit behind the memory in use, no launch of a pass fails, whatever 32 bits can address |
| `GroupMemory.ShippedHeap` | libraries/bsg_manycore_cuda.cpp:186-195 | the shipped heap reaches beyond 2^32; its budget is all memory from its start to 0xFFFFFFFF, and its stock is all of it |
| `GroupRuns.RunSafety` | libraries/bsg_manycore_cuda.cpp:1444-1561 | on any heap, after any history a tile is busy exactly when it lies in the rectangle of one and only one active group, inside the mesh |
| `GroupRuns.DistinctArguments` | libraries/bsg_manycore_cuda.cpp:1565-1584 | after any history without an allocation at or beyond 0xFFFFFFFF active groups own distinct allocated argument blocks, apart from those launched on a full heap |
| `GroupRuns.ArgumentsApart` | libraries/bsg_manycore_cuda.cpp:1565-1584 | after such a history the arguments of two running groups, four bytes each, share no byte, unless a group has no block |
| `GroupRuns.RunMemory` | libraries/bsg_manycore_cuda.cpp:1565-1666 | such a history keeps every allocation that is no argument block |
| `GroupRuns.BudgetStaysLow` | libraries/bsg_manycore_cuda.cpp:1090-1116 | a history whose grids ask for no more than lies between the memory in use and 0xFFFFFFFF is one; freed blocks only help |
| `GroupRuns.StockLasts` | libraries/bsg_manycore_cuda.cpp:1565-1607 | over a history whose grids have known kernels and ask for no more than the stock no launch fails |
| `GroupRuns.RunGivesBack` | libraries/bsg_manycore_cuda.cpp:1307-1333 | after any history, once all groups are finished, tiles and references are given back, and allocations too if none was at or beyond 0xFFFFFFFF |
| `GroupRuns.ReleasedOnce` | libraries/bsg_manycore_cuda.cpp:1276-1333 | over any run a kernel is cleaned up exactly once, by its last group, if and only if its grid has a group; if it has none, never |
| `GroupRuns.SkipExact` | libraries/bsg_manycore_cuda.cpp:1639-1659 | a pass that skips the last failed shape equals one that does not, if and only if it meets no waiting (0, 0) group before a shape has failed |
| `GroupRuns.SkipHarmless` | libraries/bsg_manycore_cuda.cpp:1639-1659 | it equals one that does not when no waiting group has dimension (0, 0) |
| `GroupRuns.SomethingRuns` | libraries/bsg_manycore_cuda.cpp:1679-1698 | no deadlock: with unfinished groups that have tiles and fit, a pass without error leaves a group running |
| `GroupRuns.AnyOrder` | libraries/bsg_manycore_cuda.cpp:1679-1698 | on any heap, for every order of completions the loop makes one turn per unfinished group, never stops short without a launch error, which a stock excludes, and gives everything back, allocations within the budget |
| `GroupRuns.PacketSelectsSender` | libraries/bsg_manycore_cuda.cpp:1773-1794 | the finish packet of a running group matches that group only |
| `GroupRuns.ReceivedExactly` | libraries/bsg_manycore_cuda.cpp:1762-1807 | a packet completes the first running group whose origin, finish address and finish value 0xFACE it carries; any other packet changes nothing |
| `DeviceRuns.EndsWaitExactly` | libraries/bsg_manycore_cuda.cpp:1740-1807 | a wait ends exactly on such a packet of a running group of the pod that its source names |
| `DeviceRuns.SourceIndex` | libraries/bsg_manycore_cuda.cpp:1767-1777 | for every 8-bit source the signed index is the number of the area that the pod and tile fields name, counted on beyond the pods; the wrap-arounds on the way cancel |
| `DeviceRuns.SourceInRange` | libraries/bsg_manycore_cuda.cpp:1767-1777 | so the index is one of the pods if and only if that number is, and it is negative for cores west of all pods |
| `DeviceRuns.PacketSelectsPod` | libraries/bsg_manycore_cuda.cpp:1767-1777 | the pod recovered from the source tile of a running group is its pod |
| `DeviceRuns.CompletedPod` | libraries/bsg_manycore_cuda.cpp:1793-1806 | each completion takes one off the device-wide number of unfinished groups and keeps what the pods have in stock |
| `DeviceRuns.AnyOrderOfPods` | libraries/bsg_manycore_cuda.cpp:1828-1847 | for every order in which groups of any pods complete, only their pods being launched again: one turn per completion, every pod of the list has finished or runs a group, there is a next turn until all have finished or a launch fails, which a stock excludes, and then everything is given back |
| `DeviceRuns.ServeEffect` | libraries/bsg_manycore_cuda.cpp:1828-1847 | the same for the loop over every sequence of packets, stray ones included: what holds when it is done, waits, fails or leaves the array of pods |
| `DeviceRuns.ServeOneEffect` | libraries/bsg_manycore_cuda.cpp:1679-1698 | the same for the loop of one pod |
| `DeviceRuns.CompletionsSuffice` | libraries/bsg_manycore_cuda.cpp:1828-1847 | with a stock in every pod, as many completions as there are unfinished groups bring all pods of the list to their end |
| `DeviceRuns.SenderCompletes` | libraries/bsg_manycore_cuda.cpp:1767-1807 | the packet of a running group ends the wait and completes that very group |
| `DeviceRuns.NextCompletes` | libraries/bsg_manycore_cuda.cpp:1828-1847 | while the loop waits, the packet of any running group of a listed pod completes one more group |
| `DeviceRuns.ReachesEnd` | libraries/bsg_manycore_cuda.cpp:1828-1847 | from every point at which it waits, packets of running groups bring the loop to its end, with a stock to the end of all groups |
| `Cuda.Pod.constructor` | libraries/bsg_manycore_cuda.cpp:698-732 | a new pod, with a heap anywhere, has all tiles free, no groups, and satisfies the invariants |
| `Cuda.Pod.TilesFree` | libraries/bsg_manycore_cuda.cpp:1478-1492 | the inner scan tells whether all tiles of a rectangle are free |
| `Cuda.Pod.PaintTiles` | libraries/bsg_manycore_cuda.cpp:1502-1524 | exactly the tiles of the rectangle change |
| `Cuda.Pod.AllocateTiles` | libraries/bsg_manycore_cuda.cpp:1444-1529 | the scan places the group at the least free placement, or changes nothing if there is none |
| `Cuda.Pod.LaunchGroup` | libraries/bsg_manycore_cuda.cpp:1565-1607 | arguments, status and errors as specified |
| `Cuda.Pod.TryLaunchGroups` | libraries/bsg_manycore_cuda.cpp:1633-1666 | the pass computes the specified state and keeps the invariants |
| `Cuda.Pod.CompleteGroup` | libraries/bsg_manycore_cuda.cpp:1307-1333 | deallocation and cleanup compute the specified state and keep the invariants |
| `Cuda.Pod.EnqueueKernel` | libraries/bsg_manycore_cuda.cpp:1339-1422 | one group per grid coordinate, the reference count is their number, and the doubled queue has room for each |
| `Cuda.Pod.FindSender` | libraries/bsg_manycore_cuda.cpp:1777-1794 | the first running group with the source tile and finish address |
| `Cuda.Pod.AllGroupsFinished` | libraries/bsg_manycore_cuda.cpp:1428-1437 | whether every group is finished |
| `Cuda.Device.WaitAny` | libraries/bsg_manycore_cuda.cpp:1740-1814 | packets are dropped up to the first that matches a running group, which completes that group and changes no other pod, or that names no pod; nothing is assumed of the packets |
| `Cuda.Device.ExecutePod` | libraries/bsg_manycore_cuda.cpp:1679-1698 | terminates in the state and with the verdict of the specified loop, for every sequence of packets; done, waiting, failed and undefined mean what `ServeOneEffect` says, and when done all is given back, allocations within the budget |
| `Cuda.Device.ExecutePods` | libraries/bsg_manycore_cuda.cpp:1828-1847 | the same for the loop over several pods, after a first launch of each: done, waiting, failed and undefined mean what `ServeEffect` says, and when done all is given back |
| `VCache.WayAddrDecodes` | libraries/bsg_manycore_vcache.h:76-132 | a tag address decodes to the set and way it was built from |
| `VCache.WayAddrValue` | libraries/bsg_manycore_vcache.h:119-123 | the tag address as a sum: bit 29, the way in steps of a way, the set in steps of a block |
| `VCache.AddressFields` | libraries/bsg_manycore_vcache.h:76-117 | the set of an address is its block number modulo the sets, its tag the quotient by the size of a way |
| `VCache.FlushKeepsView` | libraries/bsg_manycore.cpp:665-681 | flushing a tag changes what no load returns and keeps coherence |
| `VCache.FillKeepsView` | libraries/bsg_manycore.cpp:683-693 | bringing a line in changes what no load returns and keeps coherence |
| `VCache.CleanMeansDram` | libraries/bsg_manycore.cpp:665-693 | behind coherent caches without dirty lines DRAM holds what loads return |
| `VCache.CacheSystem.ApplyToPod` | libraries/bsg_manycore.cpp:598-625 | the sweep sends its command to every tag of the pod exactly once and to no other tag |
| `VCache.CacheSystem.FlushPod` | libraries/bsg_manycore.cpp:665-693 | afterwards no line of the pod is dirty and every load returns what it did, in spite of the dummy loads |
| `VCache.CacheSystem.InvalidatePod` | libraries/bsg_manycore.cpp:632-642 | loads from the pod return what DRAM holds, other loads what they did |
| `DmaMap.PermutationInjective` | libraries/bsg_manycore_memsys.c:284-308 | the field permutation, whatever the order of its fields, is injective on channel addresses if and only if the fields cover every address bit |
| `DmaMap.PermutationBits` | libraries/bsg_manycore_memsys.c:284-308 | every bit of the physical address: byte offset, column, bank, bank group and row in this order from bit 0 on, each from its own place in the address |
| `DmaMap.PermutationBound` | libraries/bsg_manycore_memsys.c:284-308 | no bit is set above the row |
| `DmaMap.ChunkContiguous` | libraries/bsg_manycore_memsys.c:284-308 | a chunk inside a stripe stays contiguous when the column bits sit directly above the byte offset, or the stripe is within the byte offset, and no other field is lower |
| `DmaMap.Hbm2LayoutPasses` | hardware/memsys_hbm2.mk:41-53 | the shipped HBM2 layout keeps all 30 address bits and passes stripes through if and only if they have at most 2 KiB |
| `DmaMap.X4Y4HbmInjective` | libraries/features/dma/simulation/bsg_manycore_dma.cpp:26-67 | no two caches share a memory and bank |
| `DmaMap.X1Y1HbmInjective` | libraries/features/dma/simulation/bsg_manycore_dma.cpp:72-103 | the same for one pod |
| `DmaMap.X4Y4TestInjective` | libraries/features/dma/simulation/bsg_manycore_dma.cpp:108-146 | the same for test memories if and only if there are at least 32 channels |
| `DmaMap.DefaultInjective` | libraries/features/dma/simulation/bsg_manycore_dma.cpp:151-163 | the same for the default table |
| `DmaMap.DmaTables.InitByPod` | libraries/features/dma/simulation/bsg_manycore_dma.cpp:26-146 | the loops fill the entry of every cache with its slot |
| `DmaMap.DmaTables.InitDefault` | libraries/features/dma/simulation/bsg_manycore_dma.cpp:151-163 | the same for the default table |
| `DmaMap.DmaTables.Init` | libraries/features/dma/simulation/bsg_manycore_dma.cpp:165-193 | the table that the configuration selects is filled with the slot of every cache, or DMA is not supported |
| `DmaMap.SelectedTableInjective` | libraries/features/dma/simulation/bsg_manycore_dma.cpp:165-193 | whichever table the configuration selects gives every cache its own slot, given 32 channels for the test table |
| `DmaMap.SelectedTableFits` | libraries/features/dma/simulation/bsg_manycore_dma.cpp:165-193 | the bank numbers of the selected table are below the caches per channel, for the two tables that do not divide if and only if there are 16 of them |
| `DmaMap.NoAliasing` | libraries/features/dma/simulation/bsg_manycore_dma.cpp:203-265 | two bytes of caches with EPAs below the bank size have different memories or different physical addresses |
| `DmaMap.PastTheBank` | libraries/features/dma/simulation/bsg_manycore_dma.cpp:238-252 | a byte past the end of a bank is a byte of the next bank |
| `DmaLocation.SelectedTable` | libraries/features/dma/simulation/bsg_manycore_dma.cpp:165-193 | which machines get which table |
| `DmaLocation.DefaultSlot` | libraries/features/dma/simulation/bsg_manycore_dma.cpp:151-163 | the default table divides the cache number by the caches of a channel |
| `DmaLocation.HbmPodsSlot` | libraries/features/dma/simulation/bsg_manycore_dma.cpp:26-67 | memory and bank of every cache of 4x4 pods on HBM2, as numbers |
| `DmaLocation.HbmOnePodSlot` | libraries/features/dma/simulation/bsg_manycore_dma.cpp:72-103 | the same for one pod |
| `DmaLocation.TestPodsSlot` | libraries/features/dma/simulation/bsg_manycore_dma.cpp:108-146 | the same for test memories |
| `DmaLocation.PhysicalValue` | libraries/features/dma/simulation/bsg_manycore_dma.cpp:234-255 | a bank starts at its number times the size of a memory divided by the caches of a channel; only DRAMSim3 and HBM2 permute the address |
| `DmaLocation.HbmAddress` | libraries/bsg_manycore_memsys.c:284-308 | the permutation of the shipped HBM2 layout as a sum |
| `DmaLocation.ShippedByte` | libraries/features/dma/simulation/bsg_manycore_dma.cpp:203-265 | on the shipped machine, memory and physical address of every byte behind every cache |
| `DmaLocation.ShippedEva` | libraries/features/dma/simulation/bsg_manycore_dma.cpp:203-265 | the same from the DRAM EVA of a tile |
| `DmaBuffer.WriteRefines` | libraries/features/dma/simulation/bsg_manycore_dma.cpp:275-292 | copying a chunk into its memory buffer changes exactly the bytes of the chunk behind its cache and no byte behind any cache otherwise |
| `DmaBuffer.ReadRefines` | libraries/features/dma/simulation/bsg_manycore_dma.cpp:303-320 | copying a chunk from its buffer gives the bytes behind its cache |
| `DmaBuffer.SegmentIsChunk` | libraries/bsg_manycore_eva.cpp:535-587 | a piece that the range loops hand to DMA is such a chunk if and only if its EPA is below the bank size |
| `DmaBuffer.EpaBound` | libraries/bsg_manycore_eva.cpp:535-587 | an EVA reaches no EPA beyond what its top and stripe bits can name |
| `DmaBuffer.EvaInBank` | libraries/bsg_manycore_eva.cpp:535-587 | an EVA stays inside its bank if and only if it is below a bound given by bank size and columns |
| `DmaBuffer.BuiltLayout` | libraries/features/dma/simulation/bsg_manycore_dma.cpp:165-193 | the tables that initialisation builds make a layout in which no two bytes alias and chunks are contiguous |
| `DmaBuffer.ShippedLayout` | machines/pod_X4Y4_ruche_X16Y8_hbm/Makefile.machine.include:40-124 | the shipped 4x4-pod machine on HBM2 has such a layout, and its banks hold exactly the EPAs that EVAs can name |
| `PodDma.DmaWrite` | libraries/bsg_manycore.cpp:1390-1409 | support, DRAM and bank checks; then one copy behind the caches, which is one copy into the memory buffer that the tables give for the NPA |
| `PodDma.DmaRead` | libraries/bsg_manycore.cpp:1426-1441 | the same checks; then the bytes of DRAM |
| `PodDma.EvaWriteDma` | libraries/bsg_manycore_eva.cpp:1160-1168 | a range of DRAM EVAs, aligned or not, is stored behind the caches and nothing else changes; in the memories there are exactly the copies of its pieces, each translated, cut at its segment and put at the buffer of its NPA |
| `PodDma.RangeRefines` | libraries/bsg_manycore_eva.cpp:1105-1168 | those copies refine the range: memories that hold what DRAM holds do so again after them, when DRAM has the range stored |
| `PodDma.EvaReadDma` | libraries/bsg_manycore_eva.cpp:1260-1268 | the bytes of such a range |
| `PodDma.FetchedFromMemories` | libraries/features/dma/simulation/bsg_manycore_dma.cpp:303-320 | what a range read returns is what the memories hold at the buffers of its bytes |
| `PodDma.RangeInBanks` | libraries/features/dma/simulation/bsg_manycore_dma.cpp:238-252 | a mapped range stays inside its banks if and only if it ends below the EVA where the banks end |
| `PodDma.AlwaysInBanks` | libraries/features/dma/simulation/bsg_manycore_dma.cpp:238-252 | it does on a machine whose banks hold every EPA that an EVA can name |
| `PodDma.DmaToDevice` | libraries/bsg_manycore_cuda.cpp:2030-2078 | loads return the old view overwritten by the jobs in order: no dirty line is lost, no stale line survives, other pods keep their view; the memories after the flush hold what loads returned, then come exactly the copies of the jobs, and they hold what loads from the pod return |
| `PodDma.DmaToHost` | libraries/bsg_manycore_cuda.cpp:2081-2122 | returns what loads return and changes no view |
| `Loader.LoadTileSegment` | libraries/bsg_manycore_loader.cpp:252-308 | succeeds exactly when the segment fits and can be transferred, wherever its addresses lie; then its range holds the file bytes followed by zeros and nothing else changed |
| `Loader.LoadTilesSegment` | libraries/bsg_manycore_loader.cpp:319-334 | succeeds exactly when the segment can be loaded through every tile; then every tile of the list sees it and nothing else changed |
| `Loader.SameSegmentByte` | libraries/bsg_manycore_loader.cpp:319-334 | loaded for one tile after the other, a segment at local, group or global addresses can only meet itself at the same byte, which gets the same value |
| `Loader.LoadSegment` | libraries/bsg_manycore_loader.cpp:489-525 | a segment is loaded never, once for all tiles of the pod, or for each tile; succeeds exactly when it lies inside the file and can be loaded that way; then every tile sees the bytes from its offset in the file on, followed by zeros |
| `Loader.LoadCaches` | libraries/bsg_manycore_loader.cpp:344-414 | succeeds exactly when there is no tile, or the text has bytes, whole words within the cache, and every tile is reachable; then every tile's instruction cache holds the start of the text |
| `Loader.LoadSegments` | libraries/bsg_manycore_loader.cpp:615-686 | succeeds exactly when every segment lies inside the file and can be loaded, there is a text, and the caches can be loaded; then, if no two segments meet, every tile of the pod sees at each address of every loadable segment the byte of the file at the segment's offset, or zero past its file bytes, and from EPA 0x1000000 on has the first 4096 file bytes of the last executable segment in its cache, and nothing else changed |
| `Loader.UsualDisjoint` | libraries/bsg_manycore_loader.cpp:615-686 | segments in DRAM or local memory do not meet if their address ranges do not overlap |
| `Loader.TextDecides` | libraries/bsg_manycore_loader.cpp:344-390 | when every segment can be loaded, the load succeeds if and only if the text has file bytes |
| `Loader.BareTextFails` | libraries/bsg_manycore_loader.cpp:372-376 | a program whose only segment is executable and without file bytes fails to load |
| `Transmit.NeverOverflows` | libraries/platforms/aws-fpga/bsg_manycore_platform.cpp:139-250 | under every interleaving of polls, writes and partial drains no word is written to a full FIFO and the software copy never exceeds the vacancy in whole packets |
| `Transmit.Platform.TransmitPacket` | libraries/platforms/aws-fpga/bsg_manycore_platform.cpp:214-250 | when it returns, exactly the words of the packet have entered the FIFO, in order and none lost, and what happened is a schedule as above |

## Left out

- Cuda.Device.ExecutePod: device writes of configuration and runtime symbols are taken to succeed and are not part of the state; a launch fails only on the argument copy or on an unknown kernel name.
- Cuda.Device.WaitAny: what the runtime does after it has left its array of pods; the model stops there.
- TileGroups.WithLaunch: the copy of the arguments succeeds at every aligned address, because the heap is taken to lie in mapped DRAM; it does so too at an address that was reported modulo 2^32.
- RemoteLoad.ReadMemInternal: the load cap is at least 1, as the configuration check guarantees.
- PodDma.EvaWriteDma: the range lies inside the banks (`InBanks`), and a failed write leaves open how much of the range was stored; the same bound holds for the other DMA members.
- PodDma.DmaToDevice: jobs are DRAM ranges that do not wrap, as the interface demands; after a failed job nothing is claimed about coherence.
- Loader.LoadSegments: loadable segments are at least as long in memory as in the file and end inside the address space; of a segment over which a later one is loaded it is only said which bytes changed; parsing of the header table, validation of the ELF header, symbol search and register setup are not modelled.
- DmaMap.NoAliasing: memory objects of the simulator are given by their number and size.
- `MemoryManager::reserve` and the free counter of `reset`.
- Range cache operations, the validating sweep and the deprecated DRAM map.
- Coordinate range checks of group EVAs beyond what translation does with them.
- Host allocation, names and EVA-map objects, printing, tracing, file reading, ROM parsing and packet field accessors.
- Legacy single-pod and replicated wrappers, which call the functions modelled here.
