# A GPU simulator's algorithms, modelled and verified in Dafny

The simulator runs GPU kernels in an emulator and a timing model, with a driver in front and
sampling machinery that predicts times it does not simulate. This project models seven of its
cores and proves what they promise, for every input or every run:

* **Ring collectives** (`CollectiveKernels`, `AllReduce`, `Broadcast`): matrices of GPU memory, rounds
  whose kernels run in any order, the unsigned subtraction that may wrap.
* **Basic blocks** (`Instructions`, `BlockTrace`, `BlockProfilers`, `StaticFeature`, `BlockCoverage`,
  `BranchTracer`, `SampledComputeUnit`, `WorkGroupRounds`): one reference splitter, to which four
  independently written ones are proved equal; a static sweep that covers every run; predictions
  that charge every block once.
* **Driver protocols** (`Migration`, `CommandQueues`): handlers over counters and queues, proved to
  follow a machine with one phase at a time, and a table that assigns each open request to one queue.
* **Memory** (`MemoryAllocator`, `MigratedPages`, `MemoryCopy`, `BitFields`, `BuddyTree`, `Buddy`): page
  ownership, byte round trips through paging, buddy splitting with its packed bits.
* **Work distribution** (`Coordinates`, `WorkDistribution`, `GridBuilder`, `Wavefronts`,
  `KernelLaunch`): from the shares of the GPUs to the ids in the registers of a lane.
* **The sampled time engine** (`SampledEngine`): completion heap and rescaling.
* **Structures** (`Recency`, `Directory`, `IpcWindow`): an LRU queue edited through a copied slice
  header, and a sliding window in a ring array.

Objects that the source updates in place are classes; a Go panic is a precondition of the method
that would panic, or an assertion where it is proved unreachable. Times and data words are reals.
Sizes and addresses are unbounded numbers except where wrap-around decides something, and there it
is written out.

## What turned out not to hold everywhere

Each of these has a lemma or a contract that says when the code does what it is for.

* `AllReduceRing` reaches beyond the data when the first n-1 chunks of a big step exceed the buffer,
  because a uint64 subtraction wraps; the repository's own test sizes do (`ExactMemorySuffices`,
  `RepositoryTestWraps`). The result within the data is right all the same.
* `AllReduceRing` leaves words of the data as they were when a chunk has 2^31 words or more: the host
  passes the size as a uint32 and the kernels read an int (`WordsExact`, `WholeData`, `UntouchedWord`).
* The static analysis keys its tables by relative address and length and keeps an older list under
  the same key, and only `LaunchKernel` resets them, not the enqueueing path. A second kernel is
  answered with the first one's instructions where their blocks differ but their keys do not
  (`SecondKernel`, `AllListsRight`, `SecondKernelMisread`).
* A block that begins outside the swept listing is never found (`FoundIffWithin`, `OutsideUnknown`,
  `BranchesOut`).
* `computeGPUDist` gives negative distances when the root is larger than the first id plus the number
  of GPUs (`DistancesGoRound`, `NegativeDistances`).
* `storageAccessor.Write` looks up its first page for every piece, so it is right only on physically
  contiguous pages (`EmulatorWrite`).
* `Free` finds the page by virtual address alone, so it frees another process's page whenever that
  process mapped the address last, and panics when that page is gone (`Free`,
  `FreeTakesTheLastMapped`). Remapping and migration never return the old page (`Remap`,
  `AllocatePageWithGivenVAddr`).
* Devices whose size is no multiple of the page size share bytes with their successor (`PagesOverlap`).
* A copy command whose last response is a flush's, or that has no request, never completes
  (`CompletesIff`, `CompletesAlwaysIff`, `Stuck`).
* A migration without GPUs, accessing GPUs or pages never ends (`MigrationEnds`); an answer that the
  MMU's port has not taken by then is lost when the next migration's last page arrives
  (`ProcessReturnReq`, `TwoMigrationsLoseAnAnswer`).
* `formWavefronts` puts work-items of partial groups on wrong lanes unless each occupied block of 64
  ids begins with a work-item (`RightLanes`, `PartialGroupFails`).
* `NumWG` disagrees with `NextWG` on a grid with a zero dimension (`NumWGAgrees`, `ZeroGridCounts`).
* `finetuneTime` drops all pending wavefronts when exactly one is active (`FinetuneTime`,
  `OneActiveDropped`).
* `resolveBarrier` panics when wavefronts meet different numbers of barriers (`RunWG`).
* The buddy allocator's merge bit is meant to say that exactly one half of a cut block is free. It
  does as long as the second half is not cut itself (`MergeBitMeans`), and so does not after three
  allocations of one page from a storage of four (`MergeBitMisleads`).
* The buddy allocator loses a block when it is asked for no page, as a remapping of no bytes does: the
  block is neither free nor tracked (`NothingLostIff`, `NoPageTakesAll`).

## Model

| member | source | states |
|---|---|---|
| AllReduce.AllReduceRing | benchmarks/mccl/allreduce.go:6-63 | after the whole operation a touched word holds, on every GPU, the average of the initial words, and no other word has changed; if there is one GPU or no chunk has 2^31 words or more, that is every word of the data, for any number of GPUs, data size and buffer size and any order of the kernels of a round; words beyond the data change only where a wrapped push size reaches them |
| AllReduce.ExactMemorySuffices | benchmarks/mccl/allreduce.go:19-27 | memory of exactly the sizes the caller passes has room for all chunks, as the host sizes them, if and only if in no big step the first n-1 chunks exceed the buffer size, that is, if the unsigned subtraction of line 95 never wraps |
| AllReduce.RepositoryTestWraps | benchmarks/mccl/mccl_test.go:67-72 | the sizes of the repository's own test (4 GPUs, 1029 words, buffers of 256) do wrap and reach three words beyond the data |
| AllReduce.BigStep | benchmarks/mccl/allreduce.go:27-61 | one big step replaces every touched word by the average and leaves all others |
| AllReduce.BigStepOf | benchmarks/mccl/allreduce.go:19-62 | big steps compose: averaging words that an earlier big step has averaged changes nothing |
| AllReduce.ReduceRound | benchmarks/mccl/allreduce.go:28-48 | after reduce round s the chunk at ring distance s+1 holds the sum of s+2 neighbours, all other chunks are as before |
| AllReduce.GatherRound | benchmarks/mccl/allreduce.go:50-61 | each hand-round gives the averages to one more GPU |
| AllReduce.PushToBuffer | benchmarks/mccl/allreduce.go:80-115 | one push round, in any order of the GPUs: each buffer receives its ring predecessor's chunk |
| AllReduce.Reduce | benchmarks/mccl/allreduce.go:117-161 | one reduce round, in any order of the GPUs: each GPU adds its buffer to one chunk, and divides in the last round |
| AllReduce.PushToGPU | benchmarks/mccl/allreduce.go:163-199 | one hand-round, in any order of the GPUs, although sources and destinations are in the same memory |
| AllReduce.ChunkIndices | benchmarks/mccl/allreduce.go:88-91 | the three chunk index formulas pick exactly the chunk at ring distance step, step+1 and step (from the neighbour) |
| AllReduce.SizeExact | benchmarks/mccl/allreduce.go:93-106 | the size of a pushed chunk, with the unsigned subtraction either exact or wrapped to more than any push size, and what the kernel makes of it |
| AllReduce.InChunk | benchmarks/mccl/allreduce.go:93-110 | the address arithmetic of the kernel arguments assigns each word to at most one chunk |
| AllReduce.StaysInside | benchmarks/mccl/allreduce.go:93-96 | chunks stay inside the buffer exactly when no push size wraps, or when the kernels take the wrapped size for nothing |
| AllReduce.CoversData | benchmarks/mccl/allreduce.go:93-106 | every word of the current stretch of data is touched if and only if its chunks have less than 2^31 words |
| AllReduce.OnceRound | benchmarks/mccl/allreduce.go:28-48 | the partial sum that has gone once round the ring is the sum over all GPUs |
| AllReduce.TouchesData | benchmarks/mccl/allreduce.go:19-27 | the first j big steps cover the first j buffer-fuls of the data, unless chunks are too large |
| AllReduce.WholeData | benchmarks/mccl/allreduce.go:19-27 | all big steps together cover all of the data if and only if the chunks of the first one have less than 2^31 words |
| AllReduce.UntouchedWord | benchmarks/mccl/allreduce.go:93-106 | the last word of a first chunk of 2^31 words or more is a word of the data that the whole run leaves as it was |
| AllReduce.SmallChunksCountable | benchmarks/mccl/broadcast.cl:1-17 | no thread of a run overflows its index if the chunks of the first big step have at most 2^31 - 1024 words |
| AllReduce.LastStep | benchmarks/mccl/allreduce.go:19-27 | the last big step ends exactly where the data ends |
| CollectiveKernels.PushData | benchmarks/mccl/broadcast.cl:1-17 | the push kernel copies the first words of a stretch, as many as the host's size is as a signed int, and touches nothing else |
| CollectiveKernels.ReduceData | benchmarks/mccl/allreduce.cl:1-32 | the reduce kernel adds the buffer to the first words of a stretch, dividing by the number of GPUs in the last round, and touches nothing else |
| CollectiveKernels.WordsExact | benchmarks/mccl/allreduce.go:101-106 | of a size that the host passes as a uint32 and the kernels read as an int, all words are handled if and only if it is below 2^31 |
| Broadcast.BroadcastRing | benchmarks/mccl/broadcast.go:9-69 | after the loop every GPU of the ring holds the root's data and nothing else has changed, for any order of the kernels of a step |
| Broadcast.DistancesGoRound | benchmarks/mccl/helper_functions.go:37-48 | for consecutive ids the distances go once round the ring if and only if there is one GPU or the root is at most first id + n; beyond that Go's remainder turns negative |
| Broadcast.NegativeDistances | benchmarks/mccl/helper_functions.go:37-48 | for GPUs 1 and 2 and root 5 the distances are 0 and -1 |
| Broadcast.ComputeGPUDist | benchmarks/mccl/helper_functions.go:37-48 | the loop computes the distance formula for every GPU, with Go's remainder |
| Broadcast.Step | benchmarks/mccl/broadcast.go:24-67 | one step, in any order of the GPUs: each GPU receives its predecessor's chunk if that one sends, from the state before the step |
| Broadcast.SendChunk | benchmarks/mccl/broadcast.go:27-66 | which GPUs send what: not the last one of the ring, and no chunk outside the data |
| Broadcast.StateAdvances | benchmarks/mccl/broadcast.go:24-67 | a step brings every chunk under way one GPU further: distance d holds chunk c once step c + d - 1 is done |
| Broadcast.EnoughSteps | benchmarks/mccl/broadcast.go:22-24 | every chunk has reached every GPU if and only if at least chunkNum + n - 2 steps were done |
| BlockTrace.LengthsSum | emu/sampledcomputeunit.go:52-93 | the block lengths of a complete run sum to the length of the trace |
| BlockTrace.ClosedAreBlocks | emu/sampledcomputeunit.go:52-93 | every block of the reference splitting begins after a cut, ends with one and has none inside |
| Instructions.AsInt16 | emu/util.go:5-7 | the number in [-2^15, 2^15) that is congruent to the immediate's bits modulo 2^16 |
| Instructions.BranchDistance | emu/static_feature.go:338-348 | a branch with a small immediate goes forward by four times it from the next instruction, one with immediate 2^16 - k goes back by 4k |
| BlockProfilers.OnlineBbv.CountInst | profiler/wf_feature.go:102-141 | after s_endpgm the counted blocks are the reference splitting of the trace and each is counted as often as it was executed |
| BlockProfilers.OnlineBbv.Count | profiler/wf_feature.go:73-100 | one block more is counted |
| BlockProfilers.BranchFeature.Collect | profiler/branch_feature.go:109-155 | after s_endpgm the records of the wavefront are the reference splitting of its trace and their times follow each other without gaps, whatever other wavefronts add to the shared list in between |
| BlockProfilers.BranchFeature.FlushData | profiler/branch_feature.go:89-108 | one record more for this wavefront; the records of all others are as they were |
| StaticFeature.StaticComputeUnit.AnalysisWfUntilEnd | emu/static_feature.go:295-381 | whatever the tables hold before, the sweep adds exactly the blocks at the kernel's entry points and the targets it never reached; older lists stay, and the new ones are exactly the instructions of their blocks |
| StaticFeature.StaticComputeUnit.Sweep | emu/static_feature.go:295-358 | the first loop: blocks that are reached by falling through, distances to the block ends, branch targets |
| StaticFeature.StaticComputeUnit.AddTargets | emu/static_feature.go:362-370 | the second loop records the block at every branch target |
| StaticFeature.StaticComputeUnit.InitInsts | emu/static_feature.go:371-379 | every block without a list gets the instructions of its place in memory; lists that are there stay |
| StaticFeature.Listing.PCDeterminesBlock | emu/static_feature.go:325-370 | two recorded blocks with the same program counter are the same block |
| StaticFeature.Listing.AddressesApart | emu/static_feature.go:310-358 | the addresses of the listing begin at the kernel's start and are apart by the byte sizes of the instructions between them |
| StaticFeature.LoopRecorded | emu/static_feature.go:338-370 | a kernel with a loop: s_nop at 0 and 4, a branch back from 8 to 4, s_endpgm: exactly the blocks (0,3), (4,2) and (12,1) are recorded |
| StaticFeature.ListIsRight | emu/static_feature.go:372-379 | after an analysis the block of every entry point is in the tables, and its list is its own instructions if and only if no other list stood under its key |
| StaticFeature.AllListsRight | emu/static_feature.go:372-379 | all lists of a kernel are right if and only if the tables held no other list under one of its keys |
| StaticFeature.SecondKernel | emu/static_feature.go:372-379 | after a Reset and one kernel, that is a pair of entry points at the same distance whose blocks are equally long but differ |
| StaticFeature.SecondKernelMisread | driver/kernel.go:15-32 | two kernels analysed without a Reset, as the enqueueing path does: GetBBLInsts answers for the second one's block with the first one's instructions |
| BlockCoverage.RunBlocksKnown | emu/alu.go:162-214 | every block of a run that stays at listed instructions, whatever the branches decide, is the block of an entry point of the kernel, with the listed instructions |
| BlockCoverage.LookupSucceeds | emu/static_feature.go:117-123 | so, whatever the tables held before the analysis, every block of such a run is found by GetBBLInsts, which returns the executed instructions if and only if no other list stood under the block's key |
| BlockCoverage.FoundIffWithin | emu/static_feature.go:325-370 | all blocks of a run are the kernel's if and only if every instruction of the run is in the listing |
| BlockCoverage.FoundIffWithinTables | emu/static_feature.go:117-123 | with tables that were empty, the panic of GetBBLInsts is unreachable in a run under exactly that condition |
| BlockCoverage.BranchesKeepWithin | emu/alu.go:162-214 | if every branch of the kernel goes to a listed instruction, every run stays in the listing |
| BlockCoverage.OutsideUnknown | emu/static_feature.go:362-370 | a block that begins outside the listing is never recorded |
| BlockCoverage.BranchesOut | emu/static_feature.go:338-348 | a kernel that branches beyond its s_endpgm: the second block of its only complete run is not found |
| BlockCoverage.Position | emu/alu.go:136-166 | every instruction of a run lies in a swept block that begins at an entry point |
| BlockCoverage.OneRun | emu/alu.go:162-214 | the branch outcomes decide the run: of two runs of a kernel whose n-th branches go as outcome n says, one begins with the other |
| BlockCoverage.OneCompleteRun | emu/alu.go:162-214 | so a complete run is the only one that its outcomes lead to |
| SampledComputeUnit.RunWavefront | emu/sampledcomputeunit.go:279-311 | the run executed is the one that the outcomes decide: the n-th branch goes to its target if and only if it is an s_branch or outcome n is true, one outcome is used for each branch, and the run ends at s_endpgm or at the first branch without an outcome; the predicted time is start and end tick plus the engine's answers for exactly the blocks executed, each asked for once and in order; a completed wavefront takes one call more than its run has barriers |
| SampledComputeUnit.PredictMeasured | samples/sampledrunner/branchtracer.go:109-155 | replaying a wavefront that was measured up to some instruction, along the run that the outcomes decide and to its end unless they are used up: the predicted time is the measured time of its first blocks plus the start tick and the model time of every block after them; with no measured block, start and end tick and the model time of all |
| SampledComputeUnit.BranchesInsideSuffice | emu/alu.go:162-214 | a kernel stays at listed instructions if every branch goes to one |
| SampledComputeUnit.RunWfUntilBarrier | emu/sampledcomputeunit.go:36-100 | between barriers the counters describe the run so far and the answers so far are those for the blocks put out |
| SampledComputeUnit.FetchInst | emu/sampledcomputeunit.go:46-65 | the block that a branch or barrier has ended is put out at the next fetch |
| SampledComputeUnit.Execute | emu/sampledcomputeunit.go:66-84 | the program counter goes to the target at an s_branch and where the outcome is true, else to the next instruction; a branch uses one outcome; s_endpgm completes the wavefront and s_barrier stops it |
| SampledComputeUnit.EndingBlock | emu/sampledcomputeunit.go:86-93 | s_endpgm puts out the last block: the blocks are those of the reference splitting |
| WorkGroupRounds.RunWG | emu/sampledcomputeunit.go:279-311 | no wavefront is run again after its end, all run to their end, and resolveBarrier panics if and only if the runs of two wavefronts of the group have different numbers of barriers |
| WorkGroupRounds.ResolveBarrier | emu/sampledcomputeunit.go:263-274 | panics exactly when the group is not complete and some wavefront is not at a barrier; otherwise clears the barrier flags |
| BranchTracer.StitchedTime | samples/sampledrunner/branchtracer.go:109-155 | replaying a wavefront that was measured up to some instruction: the measured blocks are the first k of the run and are charged with the measured time less the start tick, the model is charged for the others; with k = 0 the model is charged for all |
| BranchTracer.EachBlockOnce | samples/sampledrunner/branchtracer.go:109-155 | the answers sum to the measured interval plus the model time of the blocks after the k-th |
| BranchTracer.BranchSampledEngine.Collect | samples/sampledrunner/branchtracer.go:292-337 | after s_endpgm the wavefront's entry holds the reference splitting of its trace and the final time; other entries stay; sampling turns on if and only if a block flushed by this instruction completes the coverage: the one before it if a cut ended it, or its own if it is s_endpgm |
| BranchTracer.BranchSampledEngine.CollectPending | samples/sampledrunner/branchtracer.go:292-317 | the block that ended before this instruction, if the instruction before was a branch or barrier, is flushed with this instruction's time; only then can sampling turn on |
| BranchTracer.NextInst | samples/sampledrunner/branchtracer.go:236-251 | flushing the open block when its successor arrives keeps the entry equal to the reference splitting of the collected instructions |
| BranchTracer.JudgedInst | samples/sampledrunner/branchtracer.go:318-337 | flushing at s_endpgm completes it |
| BranchTracer.BranchSampledEngine.Predict | samples/sampledrunner/branchtracer.go:109-155 | the answer for the m-th block: nothing inside the measured prefix, the measured time at its last block, and after it the prediction of the block's sampling engine, or the interval model's time if that engine has none, which is then kept for the next time |
| BranchTracer.BranchSampledEngine.CollectWfStart | samples/sampledrunner/branchtracer.go:161-179 | a new entry, unless prediction is on already |
| Migration.MigrationEnds | driver/driver.go:542-826 | a migration ends if and only if there are GPUs, accessing GPUs and pages, and then after exactly 2 * GPUs + 2 * accessing GPUs + pages responses |
| Migration.PhaseAfter | driver/driver.go:542-826 | which response is which: the first ones, one for each GPU, are of drained RDMA engines, then come the shootdowns of the accessing GPUs, the pages, the restarts of the accessing GPUs and those of the RDMA engines, and then the migration is over |
| Migration.Driver.ProcessReturnReq | driver/driver.go:199-227 | every response that arrives is the one the current phase waits for, no counter underflows, the counters follow the phase machine, each phase queues exactly its commands, only the last shootdown response changes the page table, and an answer to the MMU is lost if and only if one is still waiting when the last page response is processed |
| Migration.Driver.ParseFromMMU | driver/driver.go:542-563 | a migration is accepted only while no other is under way; it queues one drain command for each GPU |
| Migration.Driver.OneCounter | driver/driver.go:565-826 | at most one of the five counters is not zero |
| Migration.Driver.ExpectedResponse | driver/driver.go:199-227 | for any order of answers, the response at the head of the port is of the kind the phase waits for |
| Migration.Driver.ProcessRDMADrainRsp | driver/driver.go:576-587 | the last drain response starts the shootdown |
| Migration.Driver.SendShootDownReqs | driver/driver.go:589-619 | one shootdown for each accessing GPU, with all pages asked for |
| Migration.AskedPages | driver/driver.go:589-605 | the pages of a shootdown are those that some GPU asks for |
| Migration.Driver.ProcessShootdownCompleteRsp | driver/driver.go:621-664 | the last shootdown response, and no earlier one, prepares the pages and makes progress |
| Migration.Driver.PreparePages | driver/driver.go:621-712 | every page asked for gets one request, reading its address at that moment, and its entry moves to the new address on the asking GPU; the requests of each GPU are for exactly the pages that it asks for, in its order; the GPUs come in any order |
| Migration.MovedEntries | driver/driver.go:693-712 | entries of pages not asked for stay; the others point to the address written last, on the GPU of that request |
| Migration.ContentsFollow | driver/driver.go:693-749 | carried out in the order they are queued, the copies leave every page, moved or not, with its old contents under its new address, if the allocator's addresses are fresh |
| MigratedPages.PreparePages | driver/driver.go:643-712 | request i is for the GPU that asks for page i and its new address is a page of that GPU, or of one it bundles; the new addresses are fresh, each request reads its page's address at that moment, the page table is the one the requests replay to, and entries of pages not asked for stay |
| MigratedPages.MovePages | driver/driver.go:643-749 | the page table has, for each page asked for, the new address of its last request and the device of the GPU that asked last, as a unified page; with nothing supposed of the addresses, the copies leave every page of the process, moved or not, with its old contents under the address of the page table |
| MigratedPages.LastMove | driver/driver.go:643-712 | after all requests the entry of a page is the one that the last request for it made |
| Migration.Driver.SendMigrationReqToCP | driver/driver.go:714-734 | one page is under way at a time; the count of pages is the queued ones plus the one under way |
| Migration.Driver.ProcessPageMigrationRspFromCP | driver/driver.go:736-749 | the last page response queues one restart for each accessing GPU and prepares the answer to the MMU |
| Migration.Driver.PreparePageMigrationRspToMMU | driver/driver.go:765-793 | the answer lists exactly the pages asked for; an earlier one that the MMU's port has not accepted yet is lost, nothing else is, and every answer made is delivered, lost or waiting |
| Migration.Driver.HandleGPURestartRsp | driver/driver.go:795-804 | the last GPU restart response queues the RDMA restarts |
| Migration.Driver.ProcessRDMARestartRsp | driver/driver.go:815-826 | the last RDMA restart response ends the migration |
| Migration.Driver.SendToGPUs | driver/driver.go:182-196 | the head of the queue leaves if the port accepts it, and nothing else changes |
| Migration.Driver.MapElsewhere | driver/internal/memoryallocator.go:131-171 | a new page that another thread maps during a migration disturbs no phase of it |
| Migration.Driver.SendToMMU | driver/driver.go:828-841 | the answer to the MMU is delivered if the port accepts it |
| Migration.TwoMigrationsLoseAnAnswer | driver/driver.go:765-841 | two migrations from beginning to end while the MMU's port refuses: two answers are made, the first is lost |
| CommandQueues.Driver.ProcessReturn | driver/driver.go:465-482 | any response of any queue is taken off the first command of its queue, which completes exactly when nothing is left and the response is not a flush's; all other queues stay |
| CommandQueues.CompletesIff | driver/memorycopy.go:211-284 | a command whose requests are answered once each, in any order, completes if and only if its last response is not that of a flush; one without requests never does |
| CommandQueues.CompletesAlwaysIff | driver/memorycopy.go:211-284 | a command completes under every order of responses if and only if it has requests and none is a flush, and under some order if and only if some request is not a flush |
| CommandQueues.Driver.Stuck | driver/memorycopy.go:269-284 | a running queue whose first command has no request left gets no response any more |
| CommandQueues.Driver.OneOwner | driver/driver.go:484-540 | every open request belongs to the first command of exactly one queue, which is running |
| CommandQueues.Driver.FindCommandByReqID | driver/driver.go:510-540 | the search finds the request and its queue: the panic after the loops is unreachable |
| CommandQueues.Driver.ProcessNewCommandFromCmdQueue | driver/driver.go:255-303 | a running queue issues nothing; an idle one issues the requests of its next command, all of them new |
| CommandQueues.Driver.ProcessMemCopyCommand | driver/memorycopy.go:32-128 | a copy issues its flush requests, then its copy requests, and the queue runs |
| CommandQueues.Driver.ProcessLaunchKernelCommand | driver/driver.go:344-428 | a launch on a unified GPU runs the queue only if some GPU has work |
| CommandQueues.Driver.SendToGPUs | driver/driver.go:182-196 | sending a request does not change whose it is |
| CommandQueues.Driver.Enqueue | driver/commandqueue.go:66-71 | a new command goes to the end of its queue and issues nothing |
| CommandQueues.CommandQueue.Dequeue | driver/commandqueue.go:74-81 | the first command leaves, the others stay in order |
| CommandQueues.RemoveMsgFromMsgList | driver/command.go:166-174 | removes the first occurrence and keeps the order |
| CommandQueues.OtherReqs | driver/memorycopy.go:222-228 | the loop of the host-to-device handler removes the same request |
| MemoryAllocator.MemoryAllocator.Safety | driver/internal/memoryallocator.go:131-285 | in every reachable state no two entries share a physical page, no mapped page is on a free list, and each page of a device is free, mapped or replaced by a remapping, in exactly one way |
| MemoryAllocator.MemoryAllocator.PagesAddUp | driver/internal/memoryallocator.go:131-285 | the pages are as many as the free, the mapped and the replaced ones together |
| MemoryAllocator.PagesOverlap | driver/internal/memoryallocator.go:60-70 | pages of two devices registered one after the other share no byte if and only if the first one's storage is a whole number of pages |
| MemoryAllocator.NoSharedByte | driver/internal/memoryallocator.go:60-70 | with whole numbers of pages on all devices no two entries share a byte |
| MemoryAllocator.MemoryAllocator.Free | driver/internal/memoryallocator.go:199-211 | panics if and only if the address was never mapped or the page last mapped there is gone; of the processes that have the address mapped, exactly the one that mapped it last loses its page, which goes to the end of its device's free list; all other entries and lists stay |
| MemoryAllocator.FreeTakesTheLastMapped | driver/internal/memoryallocator.go:199-211 | a run in which freeing an address that two processes hold unmaps the page of the process that mapped it last, and freeing it again panics though the other's page is mapped |
| MemoryAllocator.MemoryAllocator.RegisterDevice | driver/internal/memoryallocator.go:60-70 | the new device's pages, and only they, become free, in the order of their addresses |
| MemoryAllocator.MemoryAllocator.InitialPages | driver/internal/devicememstateinterface.go:41-49 | the free list of a new device holds each of its pages once, in rising order |
| MemoryAllocator.MemoryAllocator.PopNext | driver/internal/devicememstateinterface.go:67-71 | the head of the free list, which no entry uses |
| MemoryAllocator.MemoryAllocator.AllocatePage | driver/internal/device.go:48-98 | the first page of the device's list or, for a unified GPU, of the last of its GPUs, from its turn on, that has one; it is found whenever one of them has, it leaves that list and no other list changes, and the turn moves on by one |
| MemoryAllocator.RoomIff | driver/internal/device.go:70-93 | an allocation finds a page, so does not panic, if and only if the device, or for a unified GPU one of its GPUs, has a page on its list |
| MemoryAllocator.NextPageServes | driver/internal/device.go:76-98 | a unified GPU takes the first page of the last GPU, counted from the one whose turn it is and round after the last, that has any |
| MemoryAllocator.TurnMovesOn | driver/internal/device.go:96-104 | the turn goes to the next GPU, and after the last one to the first |
| MemoryAllocator.MemoryAllocator.AllocatePages | driver/internal/memoryallocator.go:131-171 | consecutive new virtual pages on free pages of the device, with that page's own device recorded; unless the device is a unified GPU these are the first pages of its list, in order; existing entries stay |
| MemoryAllocator.MemoryAllocator.Allocate | driver/internal/memoryallocator.go:98-129 | every byte of the new buffer lies in a new page of the process |
| MemoryAllocator.MemoryAllocator.AllocatePageWithGivenVAddr | driver/internal/memoryallocator.go:225-249 | the entry moves to the first page of the list of the device, or of a GPU that it bundles; its old page is not returned to a free list |
| MemoryAllocator.MemoryAllocator.AllocateMultiplePages | driver/internal/device.go:59-68 | the first pages of one device's free list, in order: of the device itself or, for a unified GPU, of the GPU whose turn it is; and the turn moves on |
| MemoryAllocator.MemoryAllocator.Remap | driver/internal/memoryallocator.go:173-190 | every page of the range moves to the next free page of the device, all other entries stay, and the pages that are lost are exactly the old ones of the range |
| MemoryAllocator.MemoryAllocator.RemovePage | driver/internal/memoryallocator.go:199-211 | the entry of the process that mapped the address last goes, and its page is free again, at the end of its device's list |
| MemoryAllocator.MemoryAllocator.DeviceIDByPAddr | driver/internal/memoryallocator.go:79-88 | in whatever order the devices are tried, a page's own device is found |
| MemoryCopy.RoundTrip | driver/memorycopyglobalstorage.go:31-112 | copying bytes to a mapped range and back returns them, for any address, length and page layout |
| MemoryCopy.OthersUnchanged | driver/memorycopyglobalstorage.go:43-64 | a copy to the device leaves every other virtual byte of every process as it was |
| MemoryCopy.WrittenByte | driver/memorycopyglobalstorage.go:43-64 | what a copy to the device does to any mapped byte of any process |
| MemoryCopy.TranslateInjective | virtualdevice/pagetable.go:87-91 | when no two entries share a byte, no two virtual bytes do |
| MemoryCopy.AllocatorTables | driver/internal/memoryallocator.go:131-285 | the page tables of a valid allocator of whole pages are of the kind the copies need |
| MemoryCopy.MemCopyH2D | driver/memorycopyglobalstorage.go:31-70 | the page loop stores what storing the bytes one by one would, and ends |
| MemoryCopy.MemCopyD2H | driver/memorycopyglobalstorage.go:72-112 | the page loop fetches what fetching the bytes one by one would, and ends |
| MemoryCopy.Read | emu/storageaccessor.go:17-54 | the emulator's read, with its own page arithmetic, fetches the same bytes |
| MemoryCopy.Write | emu/storageaccessor.go:56-88 | the emulator's write stores the bytes one behind the other from the translation of its first address on, also across pages |
| MemoryCopy.EmulatorWrite | emu/storageaccessor.go:56-88 | an emulator write reads back as written, for all bytes and memories, if and only if its pages are contiguous in physical memory |
| BitFields.BitField.UpdateBit | driver/internal/buddystructures.go:27-31 | toggles one bit of the packed field and no other |
| BitFields.BitField.CheckBit | driver/internal/buddystructures.go:33-38 | tells the value of one bit |
| Buddy.DeviceBuddyMemoryState.AllocateMultiplePages | driver/internal/devicebuddymemstate.go:87-134 | the pages handed out are the first ones of a block of the smallest size that fits, inside the storage, at the start of the first free block of the smallest sufficient size, and were never handed out before; of the pages that were free exactly those of the block are not any more, no other block is taken, and every free list changes only by the blocks taken, cut and put back |
| Buddy.DeviceBuddyMemoryState.Safety | driver/internal/devicebuddymemstate.go:87-134 | after any allocations each page of the storage is in exactly one block that is free or handed out, pages handed out are in blocks handed out, and, unless an allocation was one of no page, every block handed out holds a page handed out |
| Buddy.DeviceBuddyMemoryState.NothingLostIff | driver/internal/devicebuddymemstate.go:122-133 | every block that left the free lists holds a page that somebody has if and only if no allocation was one of no page |
| Buddy.NoPageTakesAll | driver/internal/devicebuddymemstate.go:87-134 | a run: asking for no page takes the only block of a storage of one page, and nobody has it |
| Buddy.DeviceBuddyMemoryState.TakeSized | driver/internal/devicebuddymemstate.go:96-120 | a block of the level asked for, out of the first free block of the lowest sufficient level; all other blocks are as they were, or free |
| Buddy.DeviceBuddyMemoryState.CutDown | driver/internal/devicebuddymemstate.go:114-120 | the cutting loop: the first part of the block stays in hand, the other parts are free and at the ends of their lists |
| Buddy.DeviceBuddyMemoryState.TakeBlock | driver/internal/devicebuddymemstate.go:107-112 | the first free block of a level; if it is handed out whole, the merge bit above it is toggled |
| Buddy.DeviceBuddyMemoryState.SplitBlock | driver/internal/devicebuddymemstate.go:114-120 | cutting a block sets both its bits and frees its second half |
| Buddy.DeviceBuddyMemoryState.HandOut | driver/internal/devicebuddymemstate.go:122-133 | the first pages of the block are listed and tracked, nobody had them, and no other page changes hands |
| Buddy.DeviceBuddyMemoryState.LevelFor | driver/internal/devicebuddymemstate.go:90-96 | the level whose blocks are the smallest that hold the pages |
| Buddy.DeviceBuddyMemoryState.PopNextAvailablePAddrs | driver/internal/devicebuddymemstate.go:73-76 | one page of the lowest level, never handed out before |
| Buddy.DeviceBuddyMemoryState.NoAvailablePAddrs | driver/internal/devicebuddymemstate.go:78-85 | no list holds a block if and only if no block of the tree is free |
| Buddy.DeviceBuddyMemoryState.IndexOfAddr | driver/internal/devicebuddymemstate.go:145-155 | the index arithmetic on addresses numbers the blocks of all levels through |
| Buddy.DeviceBuddyMemoryState.BuddyOfHalf | driver/internal/devicebuddymemstate.go:136-143 | the buddy of a first half is the second half |
| BuddyTree.Partition | driver/internal/devicebuddymemstate.go:107-120 | the uncut blocks partition the storage |
| BuddyTree.BitsCut | driver/internal/devicebuddymemstate.go:114-120 | after a cut the split bits are again those of the cut blocks |
| BuddyTree.BitsUsed | driver/internal/devicebuddymemstate.go:110-112 | the merge bit is set exactly for cut blocks whose second half was not handed out whole |
| BuddyTree.MergeBitMeans | driver/internal/devicebuddymemstate.go:215-218 | the merge bit of a cut block says whether exactly one of its halves is free if and only if its second half is not itself cut |
| Buddy.MergeBitMisleads | driver/internal/devicebuddymemstate.go:110-120 | a run: after three allocations of one page from a storage of four, the merge bit of the whole does not say whether exactly one half is free |
| BuddyTree.HeapInRange | driver/internal/devicebuddymemstate.go:52-53 | the index of a block that can be cut is inside the bit fields |
| BuddyTree.HeapInjective | driver/internal/devicebuddymemstate.go:145-151 | no two blocks share a bit |
| WorkDistribution.DistributeWGToGPUs | driver/driver.go:430-463 | each GPU's share is proportional to its compute units; the shares cover all work-groups, so the panic is unreachable, and with one work-group fewer per compute unit they would not; for a grid without a zero dimension the work-groups are counted as the set of ids whose first work-item lies in the grid |
| WorkDistribution.TotalIsAll | driver/driver.go:444-447 | the total of the code is the number of work-groups of the grid, if no dimension is zero |
| WorkDistribution.OneGPU | driver/driver.go:396-415 | each work-group of the grid passes the filter of exactly one GPU |
| GridBuilder.EachGroupOnce | kernels/gridbuilder.go:116-169 | over all GPUs, every work-group of the grid is enumerated by exactly one GPU's grid builder |
| GridBuilder.GridBuilder.NextWG | kernels/gridbuilder.go:116-169 | yields the work-groups that pass the filter one after the other, in order, with their sizes, work-items and wavefronts, and then nil |
| GridBuilder.RestIsAll | kernels/gridbuilder.go:116-169 | the enumeration has every work-group that passes, in rising order, so once |
| GridBuilder.GridBuilder.CountWG | kernels/gridbuilder.go:80-110 | counts the work-groups that pass the filter, although in another order than they are enumerated in |
| GridBuilder.NumWGAgrees | kernels/gridbuilder.go:80-114 | NumWG is the number of work-groups that NextWG yields if and only if no grid dimension is zero or nothing passes the filter |
| GridBuilder.ZeroGridCounts | kernels/gridbuilder.go:80-93 | without a filter a grid with a zero dimension has a positive NumWG, because the subtraction wraps |
| GridBuilder.EveryPointOnce | kernels/gridbuilder.go:119-184 | every point of the grid is one work-item of one work-group, and every work-item is a point of the grid |
| Wavefronts.SpawnWorkItems | kernels/gridbuilder.go:171-184 | the work-items are all points of the group in the order of their numbers |
| Wavefronts.SpawnedOnce | kernels/gridbuilder.go:171-184 | each point of the group is spawned once and no other point is |
| Wavefronts.FormWavefronts | kernels/gridbuilder.go:186-205 | the work-items are cut into wavefronts at the ids that are multiples of 64, and the mask bits of a wavefront are its items' ids modulo 64 |
| Wavefronts.WavefrontWith | kernels/gridbuilder.go:186-205 | each work-item is in exactly one wavefront |
| Wavefronts.RightLanes | kernels/gridbuilder.go:186-205 | all work-items are on the lanes their ids say if and only if the first id of every occupied block of 64 ids is itself a work-item |
| Wavefronts.FullGroupLanes | kernels/gridbuilder.go:186-205 | so the lanes are right for groups with consecutive ids |
| Wavefronts.PartialGroupFails | kernels/gridbuilder.go:186-205 | a partial group of nominal size 96 x 2 whose second item is on a wrong lane |
| Wavefronts.MaskIsLanes | kernels/gridbuilder.go:203-203 | the mask bits of such a wavefront are exactly its occupied lanes |
| Wavefronts.InitWfRegs | emu/computeunit.go:298-314 | v0, v1 and v2 of each lane hold the x, y and z of the lane's id, the latter two only if the kernel enables them |
| Wavefronts.LaneHasItsIds | emu/computeunit.go:298-314 | the ids in the registers of an occupied lane are those of its work-item |
| KernelLaunch.EveryPointRunsOnce | driver/driver.go:380-463 | over all GPUs of a launch every grid point runs at exactly one place (GPU, work-group, wavefront and place in it); if the group's lanes are right, its lane is in the execution mask and decodes to its ids |
| SampledEngine.WorkConserved | samples/sampledrunner/sampledengine.go:163-179 | rescaling conserves wavefront time: active * (new last end - first end) is the sum of all old ends less the first |
| SampledEngine.WorkSoFar | samples/sampledrunner/sampledengine.go:163-179 | the same up to every wavefront, with the work still running counted |
| SampledEngine.OrderKept | samples/sampledrunner/sampledengine.go:163-179 | rescaling keeps the completion order |
| SampledEngine.NoGrowthIff | samples/sampledrunner/sampledengine.go:163-179 | for n pending wavefronts no end time ever grows if and only if active >= n - 1 |
| SampledEngine.FinetunedMeans | samples/sampledrunner/sampledengine.go:181-188 | each wavefront completes at its compute unit, at the first time that is neither before its rescaled end nor before the next tick |
| SampledEngine.CompletedMeans | samples/sampledrunner/sampledengine.go:98-116 | wavefronts that end at a wake-up complete at one time, each at its compute unit |
| SampledEngine.SampledTimeEngine.FinetuneTime | samples/sampledrunner/sampledengine.go:142-189 | all pending wavefronts complete, in order of their ends and each at its compute unit, at the rescaled end or the next tick, whichever is later; each gets its completion if and only if the number of active wavefronts is not one, else all are dropped |
| SampledEngine.OneActiveDropped | samples/sampledrunner/sampledengine.go:160-162 | a run with one wavefront at a time: the wavefront is submitted, dropped, and never completes |
| SampledEngine.SampledTimeEngine.HandleSampledWfCompletedEvent | samples/sampledrunner/sampledengine.go:98-120 | exactly the wavefronts that end now complete, at the next tick and each at its compute unit, and the next one is woken up |
| SampledEngine.SampledTimeEngine.NewRawSampledWfCompletionEvent | samples/sampledrunner/sampledengine.go:191-209 | a submitted wavefront is pending, or with the last one all are completed or dropped |
| SampledEngine.SampledTimeEngine.HeadWakesUp | samples/sampledrunner/sampledengine.go:98-129 | in every reachable state no wavefront is overdue and the first one has a wake-up event at its end |
| SampledEngine.SampledTimeEngine.AllCompleted | samples/sampledrunner/sampledengine.go:98-209 | once all events are delivered every submitted wavefront has exactly one completion, or was dropped by finetuneTime |
| SampledEngine.SampledTimeEngine.RescaleEnds | samples/sampledrunner/sampledengine.go:163-179 | the two loops over the gaps compute the rescaled ends |
| SampledEngine.SampledTimeEngine.UpdateMaxWFS | samples/sampledrunner/sampledengine.go:137-141 | keeps the maximum |
| Directory.VictimIsLeastRecent | virtualdevice/victimfinder.go:19-34 | over any run of visits the victim is the least recently visited among the empty unlocked blocks, else among the unlocked ones, else among all |
| Directory.DirectoryImpl.FindVictim | virtualdevice/directory.go:128-132 | a block of the set of the address: the first empty unlocked block of its queue, else the first unlocked one, else the first |
| Directory.DirectoryImpl.Visit | virtualdevice/directory.go:135-144 | the queue that the set itself shows has the block at its end, although only a copy of the slice header is edited; other sets stay; a block that is not in the queue changes nothing |
| Directory.VisitCopy | virtualdevice/directory.go:136-143 | the in-place removal and append on the copied header, seen through the original one |
| Directory.Append | virtualdevice/directory.go:143-143 | Go's append: in place while there is room, else in a new array |
| Directory.RemoveInPlace | virtualdevice/directory.go:139-139 | append(s[:i], s[i+1:]...) moves the rest up by one in the shared array |
| Directory.DirectoryImpl.Reset | virtualdevice/directory.go:152-165 | new empty unlocked blocks with their set, way and cache address, queued in the order of their ways |
| Directory.DirectoryImpl.Lookup | virtualdevice/directory.go:113-122 | of the set of the address the first valid block with the address and process, or nil if the set has none |
| Directory.DirectoryImpl.SetOfBlock | virtualdevice/directory.go:95-103 | consecutive blocks go to consecutive sets, all bytes of a block to the same one: the address (q * NumSets + s) * BlockSize + o is looked up and evicted in set s |
| Recency.OrderedByLastVisit | virtualdevice/directory.go:135-144 | after any run of visits the queue is ordered by last visit |
| Recency.StillPermutation | virtualdevice/directory.go:135-144 | and is a permutation of the blocks it began with |
| IpcWindow.IPCSampledEngine.Collect | samples/sampledrunner/ipctracer.go:67-143 | after every collection the ring array holds the per-cycle counts of the last 3000 cycles, the running sum is their total and Insts_sum that of the trace, also over gaps longer than the window; a stable full window ends the program with the window's average, and until then the average is not touched |
| IpcWindow.IPCSampledEngine.ClearTo | samples/sampledrunner/ipctracer.go:129-139 | all cycles between two collections are cleared one after the other, and the window ends at the new cycle |
| IpcWindow.IPCSampledEngine.Clear | samples/sampledrunner/ipctracer.go:130-139 | one slot leaves the window; the running sum does not underflow |
| IpcWindow.IPCSampledEngine.CountOf | samples/sampledrunner/ipctracer.go:129-141 | the count of any cycle of the window can be read off its slot |
| IpcWindow.WindowStep | samples/sampledrunner/ipctracer.go:130-137 | moving the window on by one cycle |
| IpcWindow.WindowIsTotal | samples/sampledrunner/ipctracer.go:67-143 | while all cycles fit into it, the window holds everything |

## Left out

- AllReduce.AllReduceRing: the data and the buffers of the GPUs are separate memories, also in the words beyond the data; memory must have room for the chunks as the host sizes them, also where the kernels handle fewer words.
- CollectiveKernels.PushData: a count above 2^31 - 1024 would overflow the index that a thread counts with, an int; such counts are excluded, for both kernels and in AllReduceRing.
- CollectiveKernels.ReduceData: float32 rounding is not modelled, words are reals; the kernels are modelled from their OpenCL text, not from the compiled binaries.
- Broadcast.BroadcastRing: the ids are required to be consecutive and, with more than one GPU, the root at most the first id plus the number of GPUs, the condition that DistancesGoRound proves necessary.
- BlockCoverage.RunBlocksKnown: the run is required to stay at listed instructions, the condition that FoundIffWithin proves necessary.
- BlockProfilers.OnlineBbv.Count: the random projection of the block counts, a second array updated beside them, is not modelled.
- SampledComputeUnit.RunWavefront: one wavefront at a time, of a kernel whose runs stay at listed instructions, as they do if its branches go to such (BranchesInsideSuffice); how the wavefronts of a group take turns is modelled in WorkGroupRounds, and the effect of one wavefront's stores on another's branches is any sequence of branch outcomes. The model time of a block is that of the list the tables hold, which ListIsRight says when it is the block's own.
- BranchTracer.BranchSampledEngine.Predict: the per-block sampling engine and the interval model are parameters; so is the coverage test that turns sampling on.
- MigratedPages.PreparePages: every GPU is required to have room for all pages of the migration, else the code may panic for want of memory.
- Migration.ContentsFollow: that the new addresses are fresh is a premise, which MigratedPages.PreparePages provides; a page migration controller is taken to copy the page.
- Migration.Driver.MapElsewhere: other threads may map new pages during a migration; that they remap or free pages which a migration under way asks for is not modelled, the code would then panic.
- Migration.Driver.PreparePages: the allocator's choice of an address is any number; ports, contexts and the GPU that hosts the pages are not modelled.
- CommandQueues.Driver.ProcessNewCommandFromCmdQueue: how many copies, flushes and launches a command needs is given by the caller; the queues of all contexts form one list; a FlushCommand in a queue is not modelled, no code processes one; all queues of a run are there from its beginning, since a queue without commands does nothing.
- MemoryAllocator.MemoryAllocator.RemovePage: requires that the page last mapped at the address is still mapped; otherwise the code panics, after it has returned the address to the free list. Free says when, but not what the panic leaves behind.
- MemoryCopy.Write: no address converter, and the stretch it writes must lie inside the storage, else the code panics.
- Buddy.DeviceBuddyMemoryState.AllocateMultiplePages: allocation only, for a storage of a power of two pages of 4096 bytes; a request for which no block is free is a panic, and freeing with its coalescing is not modelled.
- BitFields.BitField.UpdateBit: a 64-bit word is given as its 64 bits.
- WorkDistribution.DistributeWGToGPUs: the product of the three uint32 dimensions is not reduced to 64 bits.
- GridBuilder.EachGroupOnce: the grid sizes are below 2^32, as their type says, and not zero, the case NumWGAgrees is about.
- Wavefronts.FormWavefronts: the execution mask is given as its 64 bits; the scalar registers of initWfRegs are not modelled.
- SampledEngine.SampledTimeEngine.NewRawSampledWfCompletionEvent: some wavefront is active when the last one is submitted (the code divides by that number); events are delivered in time order and end times are not in the past; the heap is one that keeps its contract, and switching off sampled events in the event engine is not modelled.
- Directory.DirectoryImpl.Visit: no address converter; the fields of a block that replacement does not look at are not modelled.
- IpcWindow.IPCSampledEngine.Collect: the deviation test is given by its verdict, the cycle by its number; cycles do not decrease.
- Coalescing in the buddy allocator, virtual memory of the real `vm.PageTable` beyond its map, and the list that the page table keeps beside the map.
- The arithmetic of the ALU, decode tables, register and scratchpad layouts: long, per opcode and mostly floating point.
- Platform builders, runners, tracers, reports, the HTTP monitor and the sample programs.
- Mutexes, goroutines, channels, tracing hooks and ports: steps that are taken or not, and bags or queues of messages.
