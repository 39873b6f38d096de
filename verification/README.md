# WonEngine runtime core, modelled in Dafny

This project models the deterministic core of the WonEngine runtime, a C++
game-engine library, and proves properties of it. It covers:

- **Job system.** The sequential skeleton of the job system (`won::jobsystem`):
  - jobs that iterate a range of job indices and decrement their context's counter;
  - FIFO job queues;
  - the `uint8` round-robin queue index and its modulus lookup table;
  - the sweep order of `Work`;
  - the per-tier thread policy of `Initialize`;
  - `ShutDown`;
  - `Execute`, `Dispatch` and `DispatchGroupCount`;
  - the inline path taken when a tier has no workers.
- **Integer maths helpers** of `won::math`: `align`, `clamp`, `GetNextPowerOfTwo` in 32 and 64 bits, and the bit reversal inside `Hammersley2D`.
- **String helpers** of `won::utils`:
  - UTF-8 to wide strings and back, for both 16-bit and 32-bit `wchar_t`;
  - ASCII case mapping;
  - 64-bit FNV-1a `Hash`.
- **DX12 descriptor allocator**, with the native heaps and the device left opaque:
  - per-heap bump allocation with a LIFO free list;
  - per-frame linear counters;
  - routing of subresource types to heaps;
  - handle arithmetic.
- **ECS store:**
  - the dense `ComponentArray` with swap-remove and its two index maps;
  - the type-keyed `ComponentManager`;
  - the `Scene` entity list;
  - the entity id counter.
- **Memory helpers:** the `LinearAllocator` bump allocator and the `RingBuffer` ticket allocator, with addresses as naturals.
- **Resource bookkeeping:**
  - `Mesh` stream packing and render-data state;
  - the `RHIShader` bytecode container;
  - `MaterialComponent` slot lookup;
  - the `ShaderLibrary` slot table;
  - the target-profile and pre-compile guards of `DXCShaderCompiler`.
- **Small state machines:**
  - the `Input` press/release latch;
  - the `config` key/value store;
  - `backlog` filtering and formatting;
  - the `profiler` range-id bookkeeping.

Every component is an immutable datatype with pure functions, and each function returns the new state next to its result.

Fixed-width arithmetic is written out where the source relies on it:
- `bv32`/`bv64` for the bit tricks (next power of two, the reversal, FNV-1a and the profiler's `CombineHash`);
- `% 2^32` / `% 2^64` for the counters and sums that wrap.

I/O, the clock, the operating system and foreign compilers are parameters:
- whether a key reads as down;
- whether a file could be read;
- the bytes the DXC compiler returns;
- the hardware thread count;
- whether a native heap or buffer was created.

A task is a trace recorder: running a job appends one `Call` record per job index.

Where the code and its design notes disagree, the model follows the code. The descriptor allocator's `BeginFrame` is declared with a frame-index parameter in `DescriptorAllocatorDX12.h` but defined without one in the `.cpp`. The model follows the `.cpp`.

## Model

| member | source | states |
|---|---|---|
| Common.Range | Source/Runtime/Private/JobSystem.cpp:48 | the half-open index range [lo, hi) in ascending order, with its length |
| Common.RangeSplit | Source/Runtime/Private/JobSystem.cpp:352-356 | a range splits at any midpoint into two consecutive ranges, which is how groups tile a dispatch |
| MathUtils.Align | Source/Runtime/Public/MathUtils.h:9-13 | `align` on an unsigned type is a multiple of the alignment below the modulus; without wrap it is the least such value not below `value`; when the sum wraps it is 0 |
| MathUtils.AlignBounds | Source/Runtime/Public/MathUtils.h:9-13 | without overflow, `align(v, a)` lies in [v, v + a) |
| MathUtils.AlignIdempotent | Source/Runtime/Public/MathUtils.h:9-13 | aligning a multiple of the alignment leaves it unchanged |
| MathUtils.Clamp | Source/Runtime/Public/MathUtils.h:18-22 | `clamp(x, a, b)` lies in [a, b] when a <= b, equals x in range, a below it and b above it |
| MathUtils.ClampIdempotent | Source/Runtime/Public/MathUtils.h:18-22 | clamping twice is clamping once |
| MathUtils.ClampMonotone | Source/Runtime/Public/MathUtils.h:18-22 | clamp is monotone in its argument |
| MathUtils.NextPowerOfTwo32 | Source/Runtime/Public/MathUtils.h:289-298 | for 1 <= x <= 2^31 the result is a power of two, at least x, and half of it is below x (the least such); 0 and values above 2^31 wrap to 0 |
| MathUtils.NextPowerOfTwo32Fixes | Source/Runtime/Public/MathUtils.h:289-298 | a power of two is its own next power of two |
| MathUtils.NextPowerOfTwo64Wraps | Source/Runtime/Public/MathUtils.h:299-309 | the 64-bit version gives 0 for 0 and for anything above 2^63 |
| MathUtils.NextPowerOfTwo64IsPow2 | Source/Runtime/Public/MathUtils.h:299-309 | for 1 <= x <= 2^63 the 64-bit result is a power of two |
| MathUtils.NextPowerOfTwo64AtLeast | Source/Runtime/Public/MathUtils.h:299-309 | for 1 <= x <= 2^63 the 64-bit result is at least x |
| MathUtils.NextPowerOfTwo64Least | Source/Runtime/Public/MathUtils.h:299-309 | for 1 <= x <= 2^63 half the 64-bit result is below x, so no smaller power of two reaches x |
| MathUtils.ReverseBits32 | Source/Runtime/Public/MathUtils.h:315-320 | the swap network puts bit i of the input at bit 31 - i |
| MathUtils.ReverseBits32Involution | Source/Runtime/Public/MathUtils.h:315-320 | reversing twice gives the index back |
| StringUtils.SequenceLength | Source/Runtime/Private/StringUtils.cpp:17-42 | a lead byte announces a sequence of at most four bytes; exactly the ASCII bytes announce one, and exactly the continuation bytes and the bytes from 0xF8 up announce none |
| StringUtils.LeadByteMasks | Source/Runtime/Private/StringUtils.cpp:22-42 | the mask tests of the source (`& 0xE0 == 0xC0` and so on) select exactly the lead-byte ranges of section 3 of RFC 3629 |
| StringUtils.Payload | Source/Runtime/Private/StringUtils.cpp:22-42 | the payload bits of up to four bytes form a value below 2^21 |
| StringUtils.Emit | Source/Runtime/Private/StringUtils.cpp:55-64 | a code point becomes one wide unit, or with 16-bit `wchar_t` above 0xFFFF a surrogate pair (section 2.1 of RFC 2781) |
| StringUtils.ToWideString | Source/Runtime/Private/StringUtils.cpp:8-68 | every unit produced fits the `wchar_t` width |
| StringUtils.Encode | Source/Runtime/Private/StringUtils.cpp:70-126 | a code point up to 0x10FFFF encodes to a sequence of at most four bytes whose lead byte announces its length and whose other bytes are continuation bytes; an ASCII value encodes to itself; larger values encode to nothing |
| StringUtils.CodePointAt | Source/Runtime/Private/StringUtils.cpp:84-105 | reading a code point consumes one unit, or two exactly when 16-bit `wchar_t` has a high surrogate followed by a low one, which combine to a code point in [0x10000, 0x10FFFF]; in every other case the first unit is the code point |
| StringUtils.ToString | Source/Runtime/Private/StringUtils.cpp:70-126 | at most four bytes per wide unit, and ASCII text is unchanged; its inverse is `ToWideString`, by Utf8RoundTrip and WideRoundTrip |
| StringUtils.UnpairedHighReadsZero | Source/Runtime/Private/StringUtils.cpp:84-105 | a high surrogate with no low partner reads as code point 0 and consumes one unit |
| StringUtils.ToStringStep | Source/Runtime/Private/StringUtils.cpp:70-126 | `ToString` encodes the first code point, then the rest |
| StringUtils.PayloadOfEncode | Source/Runtime/Private/StringUtils.cpp:22-42 | decoding the UTF-8 bytes of a code point gives the code point back |
| StringUtils.ToWideStringOfEncode | Source/Runtime/Private/StringUtils.cpp:8-68 | decoding the bytes of one code point followed by more bytes emits that code point's units, then decodes the rest |
| StringUtils.ToWideStringOfUtf8 | Source/Runtime/Private/StringUtils.cpp:8-68 | decoding the UTF-8 form of a code-point sequence yields its wide form |
| StringUtils.ToStringOfEmit | Source/Runtime/Private/StringUtils.cpp:70-126 | encoding the units of one code point followed by more units yields that code point's UTF-8, then the rest |
| StringUtils.ToStringOfWiden | Source/Runtime/Private/StringUtils.cpp:70-126 | encoding the wide form of a code-point sequence yields its UTF-8 |
| StringUtils.Utf8RoundTrip | Source/Runtime/Private/StringUtils.cpp:8-126 | `ToString(ToWideString(s)) == s` for every well-formed UTF-8 string of representable code points |
| StringUtils.WideRoundTrip | Source/Runtime/Private/StringUtils.cpp:8-126 | `ToWideString(ToString(w)) == w` for the wide form of representable code points |
| StringUtils.WideRoundTrip32 | Source/Runtime/Private/StringUtils.cpp:8-126 | with 32-bit `wchar_t` every wide string of code points up to 0x10FFFF survives the round trip |
| StringUtils.SkipsStrayByte | Source/Runtime/Private/StringUtils.cpp:24-25 | a continuation byte or a byte from 0xF8 up is skipped |
| StringUtils.TruncatedSequenceStops | Source/Runtime/Private/StringUtils.cpp:31-47 | a lead byte whose sequence runs past the end stops decoding |
| StringUtils.LoneHighSurrogate | Source/Runtime/Private/StringUtils.cpp:84-105 | with 16-bit `wchar_t` an unpaired high surrogate is written as a single 0x00 byte |
| StringUtils.OutOfRangeUnitDropped | Source/Runtime/Private/StringUtils.cpp:78-124 | with 32-bit `wchar_t` a unit above 0x10FFFF writes nothing |
| StringUtils.ToUpper | Source/Runtime/Private/StringUtils.cpp:128-136 | the length is kept, no lower-case ASCII letter is left, and only lower-case letters change (by -0x20) |
| StringUtils.ToLower | Source/Runtime/Private/StringUtils.cpp:138-146 | the length is kept, no upper-case ASCII letter is left, and only upper-case letters change (by +0x20) |
| StringUtils.ToUpperIdempotent | Source/Runtime/Private/StringUtils.cpp:128-136 | upper-casing twice is upper-casing once |
| StringUtils.CaseMappingsAbsorb | Source/Runtime/Private/StringUtils.cpp:128-146 | lower-casing after upper-casing is lower-casing, and the other way round |
| StringUtils.FnvFoldAppend | Source/Runtime/Private/StringUtils.cpp:148-161 | the FNV-1a state after a concatenation is the state after its parts in turn, so Hash(s+c) = (Hash(s) xor c) * prime mod 2^64 |
| StringUtils.Hash | Source/Runtime/Private/StringUtils.cpp:148-161 | the loop computes the FNV-1a fold from the 64-bit offset basis |
| StringUtils.FnvVectors | Source/Runtime/Private/StringUtils.cpp:148-161 | Hash("") is 14695981039346656037, and Hash("a") is the published FNV-1a 64 value |
| JobSystem.CallsFrom | Source/Runtime/Private/JobSystem.cpp:48-55 | from index j the job calls the task once per index up to its end, each call with job index, group index j - offset, and first/last flags exactly at offset and end - 1 |
| JobSystem.Indices | Source/Runtime/Private/JobSystem.cpp:50 | the visited job indices, call by call |
| JobSystem.JobVisitsItsRange | Source/Runtime/Private/JobSystem.cpp:48-55 | a job visits exactly [offset, end), in ascending order |
| JobSystem.PushBack | Source/Runtime/Private/JobSystem.cpp:67-72 | the job is appended and the count keeps matching the items |
| JobSystem.PopFront | Source/Runtime/Private/JobSystem.cpp:74-91 | it fails without change exactly when the queue is empty; otherwise it returns the front job and leaves the rest |
| JobSystem.PushAll | Source/Runtime/Private/JobSystem.cpp:67-72 | pushing a run of jobs appends them in order |
| JobSystem.QueueIsFifo | Source/Runtime/Private/JobSystem.cpp:61-92 | popping until failure returns the pushed jobs in push order |
| JobSystem.PopAllOk | Source/Runtime/Private/JobSystem.cpp:74-91 | popping a consistent queue until failure yields exactly its items |
| JobSystem.ModLut | Source/Runtime/Private/JobSystem.cpp:228-231 | entry i of the 256-entry table is i mod num_threads, below num_threads |
| JobSystem.GetNextQueueIndex | Source/Runtime/Private/JobSystem.cpp:111-115 | the `uint8` counter advances mod 256 and the index returned is its old value mod num_threads, a valid queue |
| JobSystem.NextQueueIndices | Source/Runtime/Private/JobSystem.cpp:111-120 | the queue indices of k successive `NextQueue` calls |
| JobSystem.NextQueueIndicesRoundRobin | Source/Runtime/Private/JobSystem.cpp:111-120 | call m picks queue ((start + m) mod 256) mod num_threads |
| JobSystem.SetCounter | Source/Runtime/Private/JobSystem.cpp:311-345 | writing one context's counter leaves every other counter and all tiers unchanged |
| JobSystem.ExecuteJob | Source/Runtime/Private/JobSystem.cpp:27-58 | running a job appends its calls to the trace, lowers its context's counter by exactly 1, returns the counter before the decrement, and touches nothing else |
| JobSystem.TierThreads | Source/Runtime/Private/JobSystem.cpp:195-224 | every tier gets between 1 and 256 threads |
| JobSystem.FreshTier | Source/Runtime/Private/JobSystem.cpp:224-231 | a tier initialised for n threads has n empty queues and the modulus table for n |
| JobSystem.Initialize | Source/Runtime/Private/JobSystem.cpp:188-231 | a second call while cores are known changes nothing; otherwise num_cores is max(1, hardware threads), and the tiers get cores-1, cores-2 and 1 threads (at least 1), clamped to [1, clamp(max, 1, 256)], with empty queues |
| JobSystem.InitializeThreadBounds | Source/Runtime/Private/JobSystem.cpp:195-224 | every tier has 1 to 256 threads, Streaming has exactly 1, Low never has more than High, and High stays below a multi-core machine's thread count |
| JobSystem.ShutDown | Source/Runtime/Private/JobSystem.cpp:148-178 | a live system is marked dead with zero cores, no threads and no queues (queued jobs are dropped); a dead one is unchanged; counters and trace are kept |
| JobSystem.ShutDownIdempotent | Source/Runtime/Private/JobSystem.cpp:148-153 | shutting down twice is shutting down once |
| JobSystem.RunOrQueue | Source/Runtime/Private/JobSystem.cpp:325-365 | with no workers the job runs inline; otherwise it is appended to the queue `NextQueue` picks and the round-robin counter advances |
| JobSystem.Execute | Source/Runtime/Private/JobSystem.cpp:311-333 | without workers the single-index job runs inline, appending its one call, and the counter is back at its entry value; with workers the counter stays one higher, nothing runs, the job is pushed onto queue next_queue_index mod num_threads and the round-robin counter advances; other contexts and tiers are untouched |
| JobSystem.GroupCount | Source/Runtime/Private/JobSystem.cpp:374-377 | the group count is the ceiling of job_count / group_size: enough groups to cover the jobs, and no more |
| JobSystem.DispatchGroupCountAgrees | Source/Runtime/Private/JobSystem.cpp:374-377 | while job_count + group_size - 1 stays below 2^32 the source's formula is the ceiling |
| JobSystem.DispatchGroupCountWraps | Source/Runtime/Private/JobSystem.cpp:374-377 | for 2^32 - 1 jobs in groups of 2 the source's formula gives 0 groups, while the ceiling is 2^31 |
| JobSystem.DispatchGroupCountExample | Source/Runtime/Private/JobSystem.cpp:374-377 | 10 jobs in groups of 3 make 4 groups |
| JobSystem.GroupJobIndices | Source/Runtime/Private/JobSystem.cpp:352-356 | group g calls the task on exactly the indices of the g-th block of group_size that lie below job_count, in ascending order |
| JobSystem.DispatchedGroupEndFits | Source/Runtime/Private/JobSystem.cpp:343-356 | for every group the loop reaches (below the as-written `DispatchGroupCount`) the `uint32` sum offset + group_size stays below 2^32, so the end as written is the unwrapped one |
| JobSystem.GroupsTile | Source/Runtime/Private/JobSystem.cpp:352-356 | the groups are non-empty and consecutive, start at 0, and the last one ends at job_count |
| JobSystem.GroupBounds | Source/Runtime/Private/JobSystem.cpp:352-356 | every group starts below job_count; every group but the last is full; the last reaches job_count |
| JobSystem.GroupCallsVisitRange | Source/Runtime/Private/JobSystem.cpp:352-361 | run inline, groups g onwards visit [g * group_size, job_count) in order |
| JobSystem.DispatchInlineVisitsAll | Source/Runtime/Private/JobSystem.cpp:335-377 | run inline, a whole dispatch visits [0, job_count) once each, in order |
| JobSystem.DispatchFrom | Source/Runtime/Private/JobSystem.cpp:352-366 | with workers the groups are only queued (counters and trace unchanged); without workers they run in order, lowering the counter once per group |
| JobSystem.DispatchFromInline | Source/Runtime/Private/JobSystem.cpp:352-366 | inline dispatch of groups g to gc - 1 appends their calls and lowers the counter by gc - g |
| JobSystem.Dispatch | Source/Runtime/Private/JobSystem.cpp:335-372 | zero jobs or a zero group size change nothing; otherwise the counter rises by the group count; with workers the tier's queues gain exactly the groups' jobs (as a multiset) and nothing runs; without workers the groups run inline, the trace gains their calls in group order, the tiers are unchanged and the counter is back at its entry value; no other context's counter and no other tier changes |
| JobSystem.DispatchFromFrame | Source/Runtime/Private/JobSystem.cpp:352-366 | pushing or running the groups one by one leaves every other context's counter and every other tier as they were |
| JobSystem.DispatchFromQueues | Source/Runtime/Private/JobSystem.cpp:352-366 | with workers, dispatching groups g to gc - 1 adds exactly their jobs, and so exactly their calls, to the tier's queues |
| JobSystem.DispatchInline | Source/Runtime/Private/JobSystem.cpp:335-372 | with no workers a dispatch visits every index once in ascending order and leaves the counter where it was |
| JobSystem.DrainQueue | Source/Runtime/Private/JobSystem.cpp:128-136 | draining one queue runs its jobs in FIFO order, leaves it empty, changes no other queue, and keeps each context's settled value |
| JobSystem.SweepQueue | Source/Runtime/Private/JobSystem.cpp:122-139 | step i of the intended sweep visits queue (start + i) mod num_threads, a valid queue |
| JobSystem.SweepAgrees | Source/Runtime/Private/JobSystem.cpp:122-139 | while start + i stays below 256 the source's `uint8` sweep is the intended one |
| JobSystem.SweepAsWrittenSkips | Source/Runtime/Private/JobSystem.cpp:127 | with 200 workers and start 150 the source's sweep never visits queue 94, which the intended sweep reaches at step 144 |
| JobSystem.SweepCovers | Source/Runtime/Private/JobSystem.cpp:125-138 | the intended sweep visits every queue of the tier |
| JobSystem.Sweep | Source/Runtime/Private/JobSystem.cpp:125-138 | each step drains one queue: every visited queue is left empty, no queue gains a job, only this tier's queues change, and every context's settled value is kept |
| JobSystem.SweepOrderEmpties | Source/Runtime/Private/JobSystem.cpp:125-138 | the intended sweep visits, and so empties, every queue of the tier |
| JobSystem.WorkAsWritten | Source/Runtime/Private/JobSystem.cpp:122-139 | the source's sweep through the table at `(uint8)(start + i)`: every queue it visits is left empty, only this tier's queues change, and settled values are kept |
| JobSystem.SweepOrderAgrees | Source/Runtime/Private/JobSystem.cpp:125-137 | with at most 128 workers and a starting queue of the tier, the source's visiting order is the intended (start + i) mod num_threads |
| JobSystem.WorkAgrees | Source/Runtime/Private/JobSystem.cpp:122-139 | under the same condition the source's `Work` is the intended one |
| JobSystem.Work | Source/Runtime/Private/JobSystem.cpp:122-139 | a full sweep empties every queue of the tier and leaves each context's counter at its settled value |
| JobSystem.SettledWhenEmpty | Source/Runtime/Private/JobSystem.cpp:379-382 | with the tier's queues empty a counter is at its settled value |
| JobSystem.Wait | Source/Runtime/Private/JobSystem.cpp:384-402 | an idle context is unchanged; a busy one sweeps its tier once; the answer says whether it would still block |
| JobSystem.RunOrQueueSettled | Source/Runtime/Private/JobSystem.cpp:325-331 | running or queueing a job lowers its context's settled value by one and leaves the others |
| JobSystem.DispatchFromSettled | Source/Runtime/Private/JobSystem.cpp:352-366 | dispatching groups g to gc - 1 lowers the context's settled value by gc - g |
| JobSystem.DispatchSettled | Source/Runtime/Private/JobSystem.cpp:335-372 | a dispatch leaves every context's settled value where it was, because the counter rise matches the groups it adds |
| JobSystem.ExecuteSettled | Source/Runtime/Private/JobSystem.cpp:311-333 | `Execute` leaves every context's settled value where it was |
| JobSystem.DispatchThenWaitCompletes | Source/Runtime/Private/JobSystem.cpp:335-402 | an idle context that dispatches and then waits is idle when `Wait` returns, with its counter back at zero |
| JobSystem.WaitReachesSettled | Source/Runtime/Private/JobSystem.cpp:384-402 | a context whose settled value is zero is idle once `Wait` returns |
| JobSystem.DrainQueueRuns | Source/Runtime/Private/JobSystem.cpp:128-136 | draining a queue only appends to the trace, and the calls appended are exactly the calls of the jobs that left the tier's queues |
| JobSystem.SweepRuns | Source/Runtime/Private/JobSystem.cpp:125-138 | the same holds for any sweep: the trace is only extended, by the calls of jobs that left the queues |
| JobSystem.WorkRuns | Source/Runtime/Private/JobSystem.cpp:122-139 | a full sweep appends, up to order, exactly the calls of the jobs that were queued in the tier |
| JobSystem.IndicesPermute | Source/Runtime/Private/JobSystem.cpp:48-55 | the same calls in another order visit the same job indices |
| JobSystem.DispatchThenWaitRunsAll | Source/Runtime/Private/JobSystem.cpp:335-402 | a dispatch to a tier with empty queues followed by `Wait` extends the trace by exactly one call per index of [0, job_count), whether the groups ran inline or through the queues |
| JobSystem.IsBusy | Source/Runtime/Private/JobSystem.cpp:379-382 | busy iff the remaining job count is positive |
| JobSystem.GetThreadCount | Source/Runtime/Private/JobSystem.cpp:306-309 | never more than the 256 entries of the lookup table, and 0 until cores are recorded |
| JobSystem.ShutDownReports | Source/Runtime/Private/JobSystem.cpp:296-309 | after `ShutDown` the system reports that it is shutting down, and a live system that shut down reports no threads in any tier |
| JobSystem.InitializeReports | Source/Runtime/Private/JobSystem.cpp:188-231 | after a first `Initialize`, `GetThreadCount` reports the tier policy, and the shutting-down flag is untouched |
| JobSystem.DispatchRemaining | Source/Runtime/Private/JobSystem.cpp:335-407 | right after a dispatch `GetRemainingJobCount` is the group count higher with workers and unchanged when the groups ran inline |
| DescriptorAllocator.EmptyHeap | Source/Runtime/Private/DescriptorAllocatorDX12.h:47-55 | a default heap has no native heap and is consistent |
| DescriptorAllocator.CreateDescriptorHeap | Source/Runtime/Private/DescriptorAllocatorDX12.cpp:251-273 | creation succeeds iff there is a device, capacity > 0 and the native heap was created, and then resets `allocated_count` to 0 and empties the free list, so every index is available; failure changes nothing |
| DescriptorAllocator.AllocateFromHeap | Source/Runtime/Private/DescriptorAllocatorDX12.cpp:275-297 | it fails without change iff the heap is missing or it is full with an empty free list; otherwise it takes the most recently freed index first, else bumps `allocated_count`; the index is below capacity |
| DescriptorAllocator.FreeToHeap | Source/Runtime/Private/DescriptorAllocatorDX12.cpp:299-307 | an index at or beyond `allocated_count` is ignored; any other is pushed, so the multiset of available indices gains it |
| DescriptorAllocator.AllocateTakesAvailable | Source/Runtime/Private/DescriptorAllocatorDX12.cpp:275-297 | a successful allocation removes exactly the returned index from the available multiset (the free list plus the unbumped tail) |
| DescriptorAllocator.AllocateFailsWhenEmpty | Source/Runtime/Private/DescriptorAllocatorDX12.cpp:277-296 | allocation fails iff the heap is missing or nothing is available |
| DescriptorAllocator.FreeThenAllocate | Source/Runtime/Private/DescriptorAllocatorDX12.cpp:282-307 | freeing an index and allocating returns that index and restores the heap |
| DescriptorAllocator.DoubleFreeHandsOutTwice | Source/Runtime/Private/DescriptorAllocatorDX12.cpp:299-307 | a double free is not detected: the next two allocations return the same index |
| DescriptorAllocator.HandlesOrdered | Source/Runtime/Private/DescriptorAllocatorDX12.cpp:309-333 | handles are heap start + descriptor_size * index, so distinct indices give non-overlapping descriptors |
| DescriptorAllocator.AlignConstantBufferSize | Source/Runtime/Private/DescriptorAllocatorDX12.cpp:18-21 | the result is a multiple of 256 below 2^32; without wrap it is the least such value at least size; when the sum wraps it is 0 |
| DescriptorAllocator.AlignConstantBufferSizeBits | Source/Runtime/Private/DescriptorAllocatorDX12.cpp:18-21 | the `UINT` add and mask as written give a multiple of 256 that lies within 255 above the size, or 0 once the add wraps |
| DescriptorAllocator.MaskRoundsDown | Source/Runtime/Private/DescriptorAllocatorDX12.cpp:20 | `x & ~255` rounds down to a multiple of 256 |
| DescriptorAllocator.New | Source/Runtime/Private/DescriptorAllocatorDX12.cpp:24-64 | the constructor creates the six heaps in order and stops at the first failure; the frame counts start at 0 |
| DescriptorAllocator.NewIsValid | Source/Runtime/Private/DescriptorAllocatorDX12.cpp:66-75 | the allocator is valid iff there is a device and every native heap was created |
| DescriptorAllocator.NewWithoutDevice | Source/Runtime/Private/DescriptorAllocatorDX12.cpp:27-31 | without a device the allocator is invalid |
| DescriptorAllocator.NewStopsAtFailure | Source/Runtime/Private/DescriptorAllocatorDX12.cpp:40-63 | a failed heap creation leaves that heap and all later ones uncreated |
| DescriptorAllocator.NewHeapsFresh | Source/Runtime/Private/DescriptorAllocatorDX12.cpp:33-63 | every created heap has its type and an available set of [0, capacity) |
| DescriptorAllocator.MasterSlot | Source/Runtime/Private/DescriptorAllocatorDX12.cpp:227-249 | each heap type maps to its master heap; an unknown type maps to none |
| DescriptorAllocator.Route | Source/Runtime/Private/DescriptorAllocatorDX12.cpp:94-110 | RenderTarget goes to RTV, DepthStencil to DSV, ConstantBuffer/ShaderResource/UnorderedAccess to CBV_SRV_UAV, and anything else fails |
| DescriptorAllocator.BeginFrame | Source/Runtime/Private/DescriptorAllocatorDX12.cpp:77-81 | both frame counts become 0 and the heaps are unchanged |
| DescriptorAllocator.CreateSubresourceDescriptor | Source/Runtime/Private/DescriptorAllocatorDX12.cpp:83-152 | a missing resource or an unsupported type fails without change; on success an index is allocated from the routed heap; when view creation fails that index is freed back |
| DescriptorAllocator.GetCpuDescriptorHandle | Source/Runtime/Private/DescriptorAllocatorDX12.cpp:154-166 | the handle exists iff the heap type is known, its heap exists and the index is below `allocated_count`, and equals start + size * index |
| DescriptorAllocator.ReleaseDescriptor | Source/Runtime/Private/DescriptorAllocatorDX12.cpp:168-177 | a release the handle lookup rejects changes nothing; any other frees the index to its master heap |
| DescriptorAllocator.ReleaseThenCreate | Source/Runtime/Private/DescriptorAllocatorDX12.cpp:83-177 | after a release, the next descriptor created in that heap gets the released index |
| DescriptorAllocator.ReleaseFrees | Source/Runtime/Private/DescriptorAllocatorDX12.cpp:168-177 | a valid release adds the index to the heap's available multiset |
| DescriptorAllocator.CreateTakesNext | Source/Runtime/Private/DescriptorAllocatorDX12.cpp:112-117 | a created descriptor takes the index `AllocateFromHeap` would hand out |
| DescriptorAllocator.FrameSlot | Source/Runtime/Private/DescriptorAllocatorDX12.cpp:179-190 | only CBV_SRV_UAV and SAMPLER have a frame heap |
| DescriptorAllocator.CopyToFrameHeap | Source/Runtime/Private/DescriptorAllocatorDX12.cpp:179-215 | it fails without change for other heap types or a full frame heap; otherwise it returns the current frame count as the bindless index and increments that count only |
| DescriptorAllocator.CopyRunIndices | Source/Runtime/Private/DescriptorAllocatorDX12.cpp:179-215 | successive copies return consecutive bindless indices from the current count |
| DescriptorAllocator.FrameStartsAtZero | Source/Runtime/Private/DescriptorAllocatorDX12.cpp:77-81 | after `BeginFrame` the copies number 0, 1, 2, ... |
| Entities.CreateEntity | Source/Runtime/Private/Entity.cpp:6-10 | returns the current counter and advances it by one modulo 2^64; it returns 0 only after the counter wraps |
| Entities.CreateManyConsecutive | Source/Runtime/Private/Entity.cpp:8-9 | before the wrap, n calls return n consecutive ids, so they are distinct and each is one more than the last |
| Entities.FreshIdsFromStart | Source/Runtime/Private/Entity.cpp:8-9 | from program start the first id is 1, and fewer than 2^64 - 1 calls return distinct ids and never 0 |
| ComponentManager.EmptyArray | Source/Runtime/Public/ComponentManager.h:14-70 | an empty array is consistent |
| ComponentManager.Contents | Source/Runtime/Public/ComponentManager.h:48-56 | the entity-to-value view of an array covers exactly the mapped entities |
| ComponentManager.GetData | Source/Runtime/Public/ComponentManager.h:48-51 | a present entity's value is the one the contents hold for it |
| ComponentManager.Insert | Source/Runtime/Public/ComponentManager.h:18-24 | inserting an absent entity appends the value, keeps the maps consistent, and adds the entity to the contents |
| ComponentManager.InsertKeeps | Source/Runtime/Public/ComponentManager.h:18-24 | inserting keeps every other entity's value |
| ComponentManager.InsertPresentBreaksMaps | Source/Runtime/Public/ComponentManager.h:18-24 | inserting an entity that is already present leaves the maps inconsistent, which is why callers never do |
| ComponentManager.Remove | Source/Runtime/Public/ComponentManager.h:26-46 | removing an absent entity changes nothing; removing a present one drops it, shrinks the array by one, and keeps every other value |
| ComponentManager.SwapRemoveValid | Source/Runtime/Public/ComponentManager.h:33-45 | moving the last element into the hole keeps the two index maps mutually inverse over [0, size) |
| ComponentManager.SwapRemoveContents | Source/Runtime/Public/ComponentManager.h:33-45 | the swap-remove removes exactly the entity from the contents |
| ComponentManager.ArrayEntityDestroyed | Source/Runtime/Public/ComponentManager.h:58-64 | one array forgets the entity and keeps every other one |
| ComponentManager.RegisterComponent | Source/Runtime/Public/ComponentManager.h:75-84 | an existing array is kept; otherwise a fresh empty array is added |
| ComponentManager.AddComponent | Source/Runtime/Public/ComponentManager.h:87-108 | registers on first use, then stores the value for the entity and returns it; arrays of other types are unchanged |
| ComponentManager.AddComponentSize | Source/Runtime/Public/ComponentManager.h:100-107 | an overwrite keeps the array's size; a new entity grows it by one |
| ComponentManager.Put | Source/Runtime/Public/ComponentManager.h:100-107 | the array's contents gain or update the entity's value |
| ComponentManager.Overwrite | Source/Runtime/Public/ComponentManager.h:102 | an in-place overwrite keeps the size and updates only that entity |
| ComponentManager.RemoveComponent | Source/Runtime/Public/ComponentManager.h:111-119 | the type's contents lose the entity; an unregistered type changes nothing |
| ComponentManager.GetComponent | Source/Runtime/Public/ComponentManager.h:122-130 | null iff the type is unregistered or the entity lacks it, else the stored value |
| ComponentManager.HasComponent | Source/Runtime/Public/ComponentManager.h:133-141 | true iff the entity has a value of the type |
| ComponentManager.EntityDestroyed | Source/Runtime/Public/ComponentManager.h:143-149 | every registered array drops the entity and keeps all others |
| ComponentManager.AddThenGet | Source/Runtime/Public/ComponentManager.h:87-141 | a value just added is the one read back, and has-component agrees |
| ComponentManager.AddLeavesOthers | Source/Runtime/Public/ComponentManager.h:87-108 | adding to one entity and type leaves every other entity-and-type value as it was |
| ComponentManager.DestroyedHasNothing | Source/Runtime/Public/ComponentManager.h:143-149 | a destroyed entity has no component of any type, and other entities' components are unchanged |
| Scene.EmptyScene | Source/Runtime/Public/Scene.h:13-80 | a new scene has no entities and no systems |
| Scene.CreateEntity | Source/Runtime/Public/Scene.h:16-21 | the id generator's next id is appended to the entity list; the rest is unchanged |
| Scene.CreateKeepsFresh | Source/Runtime/Public/Scene.h:16-21 | until the generator wraps, the scene's ids stay distinct, valid and below the generator |
| Scene.Without | Source/Runtime/Public/Scene.h:26-34 | the erase-remove idiom drops every occurrence of the entity and nothing else |
| Scene.WithoutAppend | Source/Runtime/Public/Scene.h:26-34 | removal distributes over concatenation, so survivors keep their order |
| Scene.WithoutAbsent | Source/Runtime/Public/Scene.h:26-34 | removing an entity not in the list leaves it as it is |
| Scene.WithoutMembership | Source/Runtime/Public/Scene.h:26-34 | an id survives iff it was present and is not the removed one |
| Scene.DestroyEntity | Source/Runtime/Public/Scene.h:23-35 | strips every component of the entity, drops it from the list in order, and leaves other entities' components unchanged |
| Scene.DestroyKeepsFresh | Source/Runtime/Public/Scene.h:23-35 | destroying an entity keeps the remaining ids fresh |
| Scene.WithoutPreservesDistinct | Source/Runtime/Public/Scene.h:26-34 | removal keeps a list of distinct ids distinct |
| Scene.AddComponent | Source/Runtime/Public/Scene.h:37-42 | the value lands in the component manager and is returned; entities and systems are unchanged |
| Scene.GetComponent | Source/Runtime/Public/Scene.h:44-48 | agrees with the component manager: null iff absent, else the stored value |
| Scene.HasComponent | Source/Runtime/Public/Scene.h:50-54 | true iff `GetComponent` is not null |
| Scene.AddSystem | Source/Runtime/Public/Scene.h:56-62 | a null system is ignored; any other is appended |
| LinearAllocator.New | Source/Runtime/Public/LinearAllocator.h:11-15 | a new allocator is empty and consistent |
| LinearAllocator.Padding | Source/Runtime/Public/LinearAllocator.h:27-33 | 0 for alignment 0 or an aligned address; otherwise below the alignment and making the address aligned |
| LinearAllocator.PaddingAligns | Source/Runtime/Public/LinearAllocator.h:30-33 | alignment - addr mod alignment reaches an aligned address |
| LinearAllocator.PaddingLeast | Source/Runtime/Public/LinearAllocator.h:27-33 | no shorter padding reaches an aligned address |
| LinearAllocator.Allocate | Source/Runtime/Public/LinearAllocator.h:25-45 | it fails without change when offset + padding + size exceeds the total; on success it returns data + offset + padding, aligned, and advances the offset by exactly padding + size; offset <= total holds throughout |
| LinearAllocator.SuccessiveDisjoint | Source/Runtime/Public/LinearAllocator.h:40-43 | two successful allocations in a row return disjoint, increasing ranges |
| LinearAllocator.Deallocate | Source/Runtime/Public/LinearAllocator.h:47-50 | deallocation changes nothing |
| LinearAllocator.Reset | Source/Runtime/Public/LinearAllocator.h:52-55 | the offset returns to 0 and the block is kept |
| LinearAllocator.ResetIsFresh | Source/Runtime/Public/LinearAllocator.h:52-55 | after a reset the allocator behaves as a fresh one over the same block |
| LinearAllocator.Wrap | Source/Runtime/Public/LinearAllocator.h:35 | reduction of a sum modulo 2^64 |
| LinearAllocator.AllocateAsWritten | Source/Runtime/Public/LinearAllocator.h:25-45 | the source's allocation with its 64-bit wrap written out; a failure changes nothing |
| LinearAllocator.AsWrittenAgrees | Source/Runtime/Public/LinearAllocator.h:25-45 | while no sum reaches 2^64 the wrapping code agrees with the model |
| LinearAllocator.AsWrittenOversizeWraps | Source/Runtime/Public/LinearAllocator.h:35-43 | a size near 2^64 passes the wrapped bounds check: the request is granted and the offset wraps |
| RingBuffer.New | Source/Runtime/Public/RingBuffer.h:13-17 | a new buffer has its capacity and ticket 0 |
| RingBuffer.Allocate | Source/Runtime/Public/RingBuffer.h:19-25 | the slot is ticket mod capacity, below capacity, and the ticket advances by count modulo 2^64 |
| RingBuffer.AllocateManySlots | Source/Runtime/Public/RingBuffer.h:19-25 | before the ticket wraps, the k-th of a run of allocations gets slot (ticket + k * count) mod capacity |
| RingBuffer.FirstSlotIsZero | Source/Runtime/Public/RingBuffer.h:13-25 | a fresh buffer's first allocation is slot 0 |
| Mesh.FlattenLength | Source/Runtime/Private/Mesh.cpp:18-27 | a stream of elements of one size occupies count * size bytes |
| Mesh.DefaultsInvalid | Source/Runtime/Public/Mesh.h:37-58 | a default subresource and default render data are invalid |
| Mesh.PackBufferSubresource | Source/Runtime/Private/Mesh.cpp:12-29 | records offset, count * stride and stride; an empty source leaves buffer and offset unchanged; a non-empty one copies its bytes to [offset, offset + size) and advances the offset by the size |
| Mesh.Pack | Source/Runtime/Private/Mesh.cpp:48-66 | the four streams are laid back to back as positions, normals, texcoords, indices, with the element strides, ending at the total size |
| Mesh.PackBytes | Source/Runtime/Private/Mesh.cpp:48-66 | the packed buffer is the four streams' bytes concatenated |
| Mesh.PackStep | Source/Runtime/Private/Mesh.cpp:12-29 | a packing step extends the filled prefix by exactly the stream's bytes |
| Mesh.CreateRenderData | Source/Runtime/Private/Mesh.cpp:36-80 | already-valid render data gives true without change; no device, an invalid mesh or a failed buffer creation gives false without change; success stores the packed layout, which is valid |
| Mesh.GetRenderData | Source/Runtime/Private/Mesh.cpp:82-85 | null iff the render data is invalid |
| Mesh.ClearRenderData | Source/Runtime/Private/Mesh.cpp:87-90 | the render data returns to the invalid default and the streams are kept |
| Mesh.ClearThenCreate | Source/Runtime/Private/Mesh.cpp:36-90 | after a clear, creating again with a device and a buffer rebuilds the same layout |
| RHIShader.SetBytecode | Source/Runtime/Public/RHIShader.h:37-47 | null data or size 0 empties the bytecode; otherwise it becomes exactly the first `size` input bytes; stage and name are kept |
| RHIShader.New | Source/Runtime/Public/RHIShader.h:19-23 | the constructor sets the stage and applies the `SetBytecode` rules |
| RHIShader.GetBytecode | Source/Runtime/Public/RHIShader.h:49-52 | null iff the bytecode is empty, else the bytecode |
| RHIShader.GetBytecodeSize | Source/Runtime/Public/RHIShader.h:54-57 | the stored bytecode's length, so zero iff it is empty |
| RHIShader.SetBytecodeOverwrites | Source/Runtime/Public/RHIShader.h:37-47 | a second `SetBytecode` replaces the first entirely |
| RHIShader.SetStage | Source/Runtime/Public/RHIShader.h:27-35 | `GetStage` returns the stage set, and nothing else changes |
| RHIShader.SetName | Source/Runtime/Public/RHIShader.h:59-67 | `GetName` returns the name set, and nothing else changes |
| RHIShader.BytecodeRoundTrip | Source/Runtime/Public/RHIShader.h:37-57 | storing a whole buffer reads back the same bytes with the same size |
| RHIShader.BytecodeIsPrefix | Source/Runtime/Public/RHIShader.h:45-52 | storing the first n bytes of a buffer reads back exactly that prefix |
| ShaderCompiler.ModelSuffix | Source/Runtime/Private/DXCShaderCompiler.cpp:16-30 | SM_6_0 to SM_6_7 map to "6_0" to "6_7"; anything else has no suffix |
| ShaderCompiler.StagePrefix | Source/Runtime/Private/DXCShaderCompiler.cpp:32-41 | Vertex, Pixel and Compute map to "vs", "ps" and "cs" |
| ShaderCompiler.TargetProfile | Source/Runtime/Private/DXCShaderCompiler.cpp:43-61 | empty iff the format is not HLSL6 or the model is unknown; otherwise prefix + "_" + suffix, six characters |
| ShaderCompiler.ProfileExamples | Source/Runtime/Private/DXCShaderCompiler.cpp:43-61 | the default description gives "vs_6_0"; Pixel with SM_6_7 gives "ps_6_7" |
| ShaderCompiler.ProfileDeterminesTarget | Source/Runtime/Private/DXCShaderCompiler.cpp:43-61 | a non-empty profile determines the stage and the model |
| ShaderCompiler.Prepare | Source/Runtime/Private/DXCShaderCompiler.cpp:82-124 | the compiler is called iff the source was read and is non-empty, the profile is non-empty, the build is Windows and DXC is ready; the entry point defaults to "main" |
| ShaderCompiler.Compile | Source/Runtime/Private/DXCShaderCompiler.cpp:82-124 | non-Windows builds and every failed guard give empty bytecode; otherwise DXC's bytes |
| ShaderLibrary.ToIndex | Source/Runtime/Private/ShaderLibrary.cpp:100-103 | each real id has a slot below the count; `Count` maps to the count |
| ShaderLibrary.ToName | Source/Runtime/Private/ShaderLibrary.cpp:105-113 | only `Count` is named "UnknownShader" |
| ShaderLibrary.IdsAreDistinct | Source/Runtime/Private/ShaderLibrary.cpp:100-113 | distinct ids have distinct slots and names |
| ShaderLibrary.New | Source/Runtime/Private/ShaderLibrary.cpp:8-11 | one empty slot per id below `Count`, so the count is 0 |
| ShaderLibrary.LoadShader | Source/Runtime/Private/ShaderLibrary.cpp:37-68 | success iff there is a compiler, the id is real and the bytecode is non-empty; failure changes nothing; success stores the shader with the description's stage and `ToName(id)`, and leaves other slots alone |
| ShaderLibrary.LoadShaderFrom | Source/Runtime/Private/ShaderLibrary.cpp:26-35 | the field-wise overload builds the description and loads it |
| ShaderLibrary.LoadAllShaders | Source/Runtime/Private/ShaderLibrary.cpp:13-24 | loads the vertex shader, then the pixel shader, stopping at the first failure; success fills both slots |
| ShaderLibrary.GetShader | Source/Runtime/Private/ShaderLibrary.cpp:70-77 | null for `Count`, else that slot |
| ShaderLibrary.Clear | Source/Runtime/Private/ShaderLibrary.cpp:79-85 | every slot is empty and the count is 0 |
| ShaderLibrary.ClearedCountsNone | Source/Runtime/Private/ShaderLibrary.cpp:87-98 | the count is 0 iff every slot is empty |
| ShaderLibrary.CountFull | Source/Runtime/Private/ShaderLibrary.cpp:87-98 | the count equals the slot count iff every slot is filled |
| ShaderLibrary.FullCount | Source/Runtime/Private/ShaderLibrary.cpp:87-98 | a library with every slot filled counts all of them |
| ShaderLibrary.CountAfterStore | Source/Runtime/Private/ShaderLibrary.cpp:64-98 | storing into a slot raises the count by one iff the slot was empty |
| ShaderLibrary.LoadCount | Source/Runtime/Private/ShaderLibrary.cpp:37-98 | a successful load into an empty slot raises the count by one; otherwise the count is unchanged |
| Material.GetMaterial | Source/Runtime/Public/MaterialComponent.h:20-28 | slot i when i is below the slot count, else slot 0; always one of the slots |
| Material.DefaultMaterial | Source/Runtime/Public/MaterialComponent.h:8-18 | a default component has one slot, with metallic 0, roughness 1 and one-sided, and every index reads it |
| Material.FallbackIsFirst | Source/Runtime/Public/MaterialComponent.h:22-25 | every index past the end reads slot 0 |
| Input.IsDown | Source/Runtime/Private/Input.cpp:53-226 | the mouse buttons read their stored flags; other buttons ask the OS on Windows and are never down elsewhere |
| Input.IsPressed | Source/Runtime/Private/Input.cpp:231-244 | true iff down and not latched; a down button is latched afterwards; a button that is not down changes nothing |
| Input.IsReleased | Source/Runtime/Private/Input.cpp:245-258 | true iff latched, and then it is unlatched whatever its state; an unlatched button is latched if down |
| Input.LatchIsPerButton | Source/Runtime/Private/Input.cpp:230-258 | neither call touches the latch of any other button |
| Input.HeldReportsOnce | Source/Runtime/Private/Input.cpp:231-244 | a held button is reported pressed on the first frame only |
| Input.StaysLatched | Source/Runtime/Private/Input.cpp:236-243 | a latched button is never reported pressed |
| Input.PressReleaseCycle | Source/Runtime/Private/Input.cpp:231-258 | a press and then a release each report once, and restore the latch so that the next press reports again |
| Input.Update | Source/Runtime/Private/Input.cpp:26-52 | the mouse flags are sampled, the double-click flag is cleared, and it is set exactly when the left button is newly pressed and the timing-and-distance test passes |
| Configuration.NatDigits | Source/Runtime/Private/Configuration.cpp:26 | decimal digits without leading zeros |
| Configuration.ToDecimal | Source/Runtime/Private/Configuration.cpp:26 | `std::to_string`: a minus sign exactly for negatives, then digits |
| Configuration.DigitsValueOfNatDigits | Source/Runtime/Private/Configuration.cpp:24-38 | reading back the digits of a number gives the number |
| Configuration.SkipSpace | Source/Runtime/Private/Configuration.cpp:37 | skips exactly the leading white space |
| Configuration.DigitRunEnd | Source/Runtime/Private/Configuration.cpp:37 | ends exactly at the first non-digit |
| Configuration.Stoi | Source/Runtime/Private/Configuration.cpp:37 | `std::stoi`: fails with invalid_argument iff no digit follows the blanks and sign; otherwise the value is the signed number those digits spell, and out_of_range is thrown exactly when it lies outside `int` |
| Configuration.StoiOfDecimal | Source/Runtime/Private/Configuration.cpp:24-38 | `stoi(to_string(n)) == n` for every `int` |
| Configuration.StoiReadsPrefix | Source/Runtime/Private/Configuration.cpp:37 | " -42" reads as -42 and "12abc" as 12 |
| Configuration.StoiRejectsText | Source/Runtime/Private/Configuration.cpp:37 | "abc" throws invalid_argument |
| Configuration.StoiRejectsOverflow | Source/Runtime/Private/Configuration.cpp:37 | one past the largest `int` throws out_of_range |
| Configuration.SetString | Source/Runtime/Private/Configuration.cpp:7-10 | the key reads back the value, and every other key is unchanged |
| Configuration.TryGetString | Source/Runtime/Private/Configuration.cpp:12-22 | true with the stored text iff the key is present; otherwise false with `out` untouched |
| Configuration.SetInt | Source/Runtime/Private/Configuration.cpp:24-27 | the key reads back as the decimal text, and every other key is unchanged |
| Configuration.TryGetInt | Source/Runtime/Private/Configuration.cpp:29-39 | a missing key gives false with `out` untouched; a present key returns normally iff its text parses, with the parsed value; otherwise `stoi` throws |
| Configuration.SetIntThenGetInt | Source/Runtime/Private/Configuration.cpp:24-38 | an integer stored under a key comes back as itself |
| Configuration.TextIsNotAnInt | Source/Runtime/Private/Configuration.cpp:29-39 | a non-numeric string makes `TryGetInt` throw invalid_argument |
| Configuration.Clear | Source/Runtime/Private/Configuration.cpp:41-44 | no key is left |
| Backlog.Rank | Source/Runtime/Public/Backlog.h:15-21 | the level's enumerator position, which the threshold comparison uses |
| Backlog.Prefix | Source/Runtime/Private/Backlog.cpp:85-96 | "[Warning] " for warnings, "[Error] " for errors, "" otherwise |
| Backlog.Line | Source/Runtime/Private/Backlog.cpp:105 | the stored text is the prefix, then the message, then a newline |
| Backlog.Post | Source/Runtime/Private/Backlog.cpp:98-126 | a level below the threshold changes nothing; otherwise one entry is appended; an error answers the whole log text, which is written to the log file |
| Backlog.CString | Source/Runtime/Private/Backlog.cpp:128-131 | a C string ends at the first NUL |
| Backlog.PostString | Source/Runtime/Private/Backlog.cpp:128-131 | the `String` overload posts the text up to the first NUL |
| Backlog.CStringNoNul | Source/Runtime/Private/Backlog.cpp:128-131 | a string without NUL is its own C string |
| Backlog.Clear | Source/Runtime/Private/Backlog.cpp:79-83 | no entries and empty text; the threshold is kept |
| Backlog.SetLogLevel | Source/Runtime/Private/Backlog.cpp:133-136 | only the threshold changes, so the text so far is kept |
| Backlog.SetEnabled | Source/Runtime/Private/Backlog.cpp:64-67 | only the flag changes |
| Backlog.DefaultThreshold | Source/Runtime/Private/Backlog.cpp:14-103 | with the default threshold a post is dropped iff its level is None |
| Backlog.PostAll | Source/Runtime/Private/Backlog.cpp:98-126 | a run of posts keeps the threshold and the enabled flag, keeps the earlier entries in front, and appends exactly the entries of the posts that pass the threshold, in posting order |
| Backlog.PostAllText | Source/Runtime/Private/Backlog.cpp:22-126 | the text grows by exactly the lines of the posts that pass the threshold, in posting order |
| Backlog.JoinAppend | Source/Runtime/Private/Backlog.cpp:22-31 | appending an entry appends its text to the log text |
| Backlog.JoinConcat | Source/Runtime/Private/Backlog.cpp:22-31 | the log text of two runs of entries is their texts concatenated |
| Backlog.JoinHasEntry | Source/Runtime/Private/Backlog.cpp:22-31 | entry k's text sits in the log text right after the texts of the entries before it |
| Backlog.PostText | Source/Runtime/Private/Backlog.cpp:98-126 | one post adds its line to the log text when it passes the threshold, and nothing otherwise |
| Profiler.Probe | Source/Runtime/Private/Profiler.cpp:96-100 | the probe stops only on an id not in use, and returns the start at once when it is free |
| Profiler.BeginRange | Source/Runtime/Private/Profiler.cpp:86-108 | returns 0 without change while disabled; otherwise the id was not in use, is in use afterwards with the name, and is the only key added; the name's hash is used when it is free |
| Profiler.OpenRangesAreDistinct | Source/Runtime/Private/Profiler.cpp:93-107 | two ranges opened in a row, even with the same name, get distinct ids and both stay open |
| Profiler.EndRange | Source/Runtime/Private/Profiler.cpp:115-131 | nothing in the model changes; a time is recorded iff enabled and the id is in the map |
| Profiler.EndFrame | Source/Runtime/Private/Profiler.cpp:76-84 | ends the frame range iff enabled, and changes nothing in the model |
| Profiler.CloseAll | Source/Runtime/Private/Profiler.cpp:51-71 | every range is marked not in use, and the names and keys are kept |
| Profiler.BeginFrameNamed | Source/Runtime/Private/Profiler.cpp:38-74 | applies a pending enable or disable, clearing the ranges when the state flips; while enabled only the frame range is in use afterwards, on its name's hash |
| Profiler.FrameRangeOpens | Source/Runtime/Private/Profiler.cpp:51-73 | with every range closed the frame range opens on its own hash |
| Profiler.BeginFrame | Source/Runtime/Private/Profiler.cpp:38-74 | enabledness follows the request, and while enabled the "CPU Frame" range is open |
| Profiler.CpuFrameNameSpellsIt | Source/Runtime/Private/Profiler.cpp:73 | the frame range's name is the bytes of "CPU Frame" |
| Profiler.SetEnabled | Source/Runtime/Private/Profiler.cpp:153-156 | only the request changes; `IsEnabled` and the ranges stay until the next frame |
| Profiler.EnableAtNextFrame | Source/Runtime/Private/Profiler.cpp:38-161 | enabling takes effect at the next frame, which starts with only the frame range |
| Profiler.HitsOfOpen | Source/Runtime/Private/Profiler.cpp:182-198 | an open range's name has at least one hit |
| Profiler.GetProfileInfo | Source/Runtime/Private/Profiler.cpp:169-220 | nothing unless enabled with no disable pending; otherwise the frame line appears iff the frame range is in the map, naming it, and the names reported are exactly those of the open ranges, each with the number of open ranges that carry it |

## Left out

- Scheduler concurrency: worker threads, sleep and wake, atomics and the blocking loop in `Wait`. `Wait` sweeps the tier once and reports whether it would still block.
- Thread affinity, priority and naming: these are operating-system calls.
- The `alloca` scratch memory of a job: this is raw stack memory, so the shared-memory size is not modelled.
- JobSystem.Initialize: the hardware thread count is a parameter, and the start-up log line is left out.
- JobSystem.Initialize: after `ShutDown` a second `Initialize` runs again (num_cores is 0) but leaves `alive` false, as the source does.
- JobSystem.ShutDown: jobs still queued at shutdown are dropped without running, as in the source; their counters stay raised.
- JobSystem.NextQueueIndicesRoundRobin: when 256 is not a multiple of num_threads the round robin is uneven at the counter's wrap. The model states the exact index rather than an evenness claim.
- JobSystem.Execute: the context counter is a plain integer, with no 32-bit wrap.
- JobSystem.Work: sweeps (start + i) mod num_threads, the intended order. The source's `uint8`-cast sweep is JobSystem.WorkAsWritten. The two agree up to 128 workers (JobSystem.WorkAgrees). Above that the source leaves some queues undrained (JobSystem.SweepAsWrittenSkips).
- JobSystem.Wait: sweeps with JobSystem.Work, so "every queue empty" holds for the intended sweep. With more than 128 workers the source's `Wait` drains only the queues JobSystem.WorkAsWritten visits.
- JobSystem.Dispatch: uses the ceiling JobSystem.GroupCount, not the wrapping `DispatchGroupCount`. That one is JobSystem.DispatchGroupCountAsWritten, and the two agree while job_count + group_size - 1 < 2^32 (JobSystem.DispatchGroupCountAgrees).
- DX12 view creation (`CreateRenderTargetView` and the others) is a call into the device. Its outcome is the `viewCreated` parameter of DescriptorAllocator.CreateSubresourceDescriptor.
- DescriptorAllocator.Route: subresource types other than the five routed ones are represented by one `OtherView` value.
- DescriptorAllocator.HandlesOrdered: the handle widths (`SIZE_T`, `UINT64`) are not wrapped; addresses are naturals.
- ComponentManager.Insert: inserting an entity that is already present corrupts the maps. This is shown, not repaired, by InsertPresentBreaksMaps, and the manager never does it.
- ComponentManager.GetData: `GetData` reads `data[entity_to_index[entity]]` with `operator[]`. For an absent entity this inserts index 0 and reads `data[0]`, which is undefined behaviour on an empty array. Presence is therefore a precondition. Every caller (`AddComponent` and `GetComponent`) checks `HasData` first.
- ComponentManager.AddComponent: all component types of one manager share one value type parameter; `typeid(T).name()` is a `TypeName`.
- `Scene::Update` and the `System` interface: these are user callbacks.
- Mesh.PackBufferSubresource: the size `count * sizeof(T)` is not wrapped at 2^64.
- LinearAllocator.Allocate: uses the unwrapped bounds check offset + padding + size > total_size. The source's `Size` sum wraps. That version is LinearAllocator.AllocateAsWritten, which grants some oversize requests (LinearAllocator.AsWrittenOversizeWraps). The two agree while no sum reaches 2^64 (LinearAllocator.AsWrittenAgrees).
- RingBuffer.Allocate: requires capacity > 0, because `ticket % capacity` divides by zero in C++ for an empty buffer.
- MathUtils.Align: requires a positive alignment, because `align` divides by the alignment in C++.
- DescriptorAllocator.AlignConstantBufferSizeBits: its equality with the integer model DescriptorAllocator.AlignConstantBufferSize is not proved. Both carry the same three promises.
- `Submesh` and the GPU buffer upload: the upload is a device call, so the buffer handle is a parameter.
- ShaderCompiler.Prepare: path resolution and the file read are a parameter, and the DXC compiler is an oracle that returns bytes. The model also observes that an empty source path always fails, because nothing is read.
- ShaderCompiler.ModelSuffix: the `default` branches of the stage and model switches are only reachable through out-of-range casts. Models are raw codes below 256, and stages are a closed enum.
- `DXCShaderCompiler` construction and DXC's own diagnostics: these are foreign calls.
- Material.GetMaterial: the float fields are reals; the returned reference and mutation through it are not modelled.
- Input.IsDown: the virtual-key mapping and `GetAsyncKeyState` are an OS oracle (`osDown`).
- Input.Update: the double-click timing and distance test is one boolean parameter, and the mouse position is not modelled. In Input.cpp the timer (line 23) is started once and never reset, since Timer.h:12-20 resets only in the constructor, so the "quick" half of the test passes only within the double-click interval (0.5 s by default, settable through SetDoubleClickInterval, Input.cpp:263-266) of start-up; the model does not promise a per-click interval, and SetDoubleClickInterval is not modelled on its own because the interval lives inside that boolean.
- Configuration.TryGetInt: the exception `std::stoi` throws propagates to the caller; it is modelled as the `Threw` result.
- Configuration: the process-wide map and its mutex are passed as a value.
- Backlog: debug output, log-file path resolution and writing, and `SetLogFile` are left out. `Post` only reports the text an error would write.
- Backlog.SetEnabled: the enabled flag has no effect on `Post` in the source, and none in the model.
- Profiler timers, time averaging and float formatting: the clock is outside the model.
- Profiler.Probe: the probe loop has no bound in the source, so the model carries a `fuel` bound, and `None` means the loop did not finish within that many steps.
- Profiler.BeginFrame: the frame range's name is generic in BeginFrameNamed, and BeginFrame passes "CPU Frame". BeginFrame's own contract is weaker; the full statement is BeginFrameNamed's.
- `BeginRangeGPU` (the same as the CPU version), and the `ScopedRange` RAII wrappers.
- Profiler.GetProfileInfo: the text formatting and the hash-map iteration order are left out. The resource profile is always cleared.

## Findings

| source | as written | input that shows it | evidently intended | confidence | as-written member | corrected member |
|---|---|---|---|---|---|---|
| Source/Runtime/Private/JobSystem.cpp:122-139 | `Work` casts `starting_queue` to `uint8` before the modulus table, so the sweep jumps back to low queues once start + i reaches 256 | 200 workers, `Work(150)`: queue 94 is never visited | visit (start + i) mod num_threads for i < num_threads, every queue once | not executed | JobSystem.SweepAsWrittenSkips | JobSystem.SweepCovers |
| Source/Runtime/Private/JobSystem.cpp:374-377 | `(job_count + group_size - 1) / group_size` in `uint32` wraps | job_count 2^32 - 1, group_size 2: 0 groups, so nothing runs | the ceiling of job_count / group_size | not executed | JobSystem.DispatchGroupCountWraps | JobSystem.DispatchGroupCountAgrees |
| Source/Runtime/Public/LinearAllocator.h:35-43 | `offset + padding + size > total_size` in `Size` wraps | offset 16 of 64, size 2^64 - 8: the check passes and the offset wraps to 8 | refuse any request larger than the remaining space | not executed | LinearAllocator.AsWrittenOversizeWraps | LinearAllocator.Allocate |
