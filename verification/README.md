# Verified core of the NetXMS runtime headers

A Dafny model of the low-level runtime code of NetXMS, with proofs. Each module stands beside one component:

- `RefCountProtocol`, `RefCountSafety`: the count block of `shared_ptr`/`weak_ptr` under concurrency. Every
  `Interlocked*` call and every deletion is one step, and any number of threads take steps in any order.
- `SharedPointers`: the handles themselves, with whole operations atomic, over a heap in which handles alias
  count blocks; the reference meaning is a table of handles without counters.
- `PoolModel`, `ObjectPool`: `ObjectMemoryPool`, with its region chain, bump allocation and the free list stored
  inside freed slots; memory is a map of aligned words, and clients may write anything into their objects.
- `SyncPool`, `SyncPoolCalls`: `SynchronizedObjectMemoryPool`, with every store of `allocate` and `free`, together with the loads it
  depends on, a step; threads pass objects to each other, so one may free what another allocated.
- `MovingAverage`, `Gauge`: the fixed-point exponential moving average and `GaugeData`.
- `Buffers`: `Buffer`, with its internal and allocated storage, refining plain byte sequences.
- `CasCounter`: 64-bit atomic add by compare-and-exchange.
- `ConditionVariable`: `Condition` on Windows, with spurious wakeups and timeouts, refining a sequential condition.
- `EipMessage`, `EipReceiver`: the EtherNet/IP message codec, on hosts of both byte orders, and the receiver
  that cuts a TCP byte stream into messages.
- `JsonFlags`: flag words as JSON objects, through a table of masks and names.
- `Dedup`, `NetMask`: in-place deduplication, and netmask length.

Code that updates objects is modelled by classes and loops, proved against functions of the old state; what the
code is for is then proved about those functions, over all runs. Concurrent code is a state machine: a schedule is
any sequence of (thread, action) pairs, an entry that cannot run is skipped, and the theorems are about the state
after any schedule.

## Where the code differs from what it promises

Each of these is stated with a concrete case and the exact condition under which the code keeps the promise.

- The count block is not always freed. A release that is not the last owner discards the result of its `weakCount`
  decrement (line 68), so if two releases overlap, the discarding one may come last: `OverlappingReleasesLeak`
  builds the run from any quiet state with two or more owners, `LeakIff` says exactly at which steps it happens, and
  `BlockFreedWhenReleasesApart` that it never happens while releases of owners do not overlap. The block is never
  freed twice and never touched after it is freed, overlap or not (`BlockSafe`).
- Count blocks count their own handles only. An object handed to two of them is deleted twice, and under an owner
  (`OwnedTwice`); every object is deleted once, with its last owner, iff no raw pointer is handed over twice
  (`OnceIff`).
- `getElementCount` is stale after `reset`, which leaves `m_elements` alone: one allocation and a reset leave an
  empty pool that reports one element (`ElementCountGoesStale`); the count is right iff every reset was made with
  no object live (`ElementCountIff`).
- The moving average approaches a constant input from above exactly but from below stops short by
  min(gap, floor(2047 / (2048 - exp))) units (`SettlesFromBelow`), at worst 2047 (`RestsBelow`).
- `Buffer::realloc` reads past a preallocated block that is shorter than both the internal buffer and the new
  size: `ShortBlock` gets there with three calls, `InBoundsIff` gives the condition.
- The bounds guards of `EIP_Message` add two `size_t` values and can wrap: exactly when (`GuardIsBoundsCheck`), for
  example a read at the largest offset (`LastOffsetStrays`), or a skip that moves the position back
  (`AdvanceWritePosition`, `SkipGoesBack`).
- The header of a message keeps sixteen bits of the data size: right iff that is below 65536 (`FrameLengthIff`); 65536
  bytes are announced as none (`LongFrameLooksEmpty`).
- The session handle is stored without the swap it is read with (`HandleOnWireIff`, `HandleOneIsReversed`).
- The receiver's buffer is 8192 bytes: over a steady connection a message is delivered iff it fits (`ReadMessage`), and
  one of 8193 bytes never is, though its header allows it (`LargeMessageIsStuck`).
- The flag tables are documented as a mapping, but what survives the round trip or a patch depends on the table
  (`RoundTripIff`, `PatchIff`, and `TwoBitsDoNotRoundTrip`), and collecting flags for one update, which has 32 bits,
  differs from patching for some tables (`CollectIff`, with `SharedBitDiffers` and `WideBitDiffers`).
- The two forms of `BitsInMask` agree on all contiguous masks (`FormsAgreeOnContiguous`) but not on all masks
  (`FormsAgreeIff`; 0x00 0x80 in `FormsDiffer`).

## Model

| member | source | states |
|---|---|---|
| RefCountProtocol.InitialInv | include/nx_shared_ptr.h:141-145 | the block of a first owner meets the invariant |
| RefCountProtocol.StepKeepsHandles | include/nx_shared_ptr.h:46-103 | handle names stay fresh and a handle being copied or locked stays undestroyed over every step |
| RefCountProtocol.StepKeepsInv | include/nx_shared_ptr.h:46-103 | every atomic step of any thread keeps: useCount = owners complete or in flight + a failing upgrade; weakCount = owners + owners in mid-release + weak handles; spin lock exclusive; deletions match the counts |
| RefCountProtocol.RunKeepsInv | include/nx_shared_ptr.h:46-103 | the same over every interleaving |
| RefCountSafety.ObjectDeletedAtMostOnce | include/nx_shared_ptr.h:56-70 | in every reachable state the object has been deleted at most once, and only with no owner left |
| RefCountSafety.UpgradeSucceedsIffOwned | include/nx_shared_ptr.h:77-95 | at its increment, a weak upgrade succeeds exactly when an owner is left, so never on a dead object |
| RefCountSafety.TaskProtocol | include/nx_shared_ptr.h:46-103 | an operation begun goes on until it has made its owner or weak handle, decided its upgrade, or given back its unit; an upgrade is decided by the branch it took |
| RefCountSafety.UpgradeEnds | include/nx_shared_ptr.h:77-95 | in every interleaving an upgrade ends only by unlocking, and has then made an owner or found the object dead |
| RefCountSafety.StepAdvances | include/nx_shared_ptr.h:46-103 | every step of an operation leads nearer to its end unless it finds the spin lock taken |
| RefCountSafety.NoResurrection | include/nx_shared_ptr.h:56-95 | once the object is dead no continuation of the run ever has an owner again, complete or in flight |
| RefCountSafety.BlockSafe | include/nx_shared_ptr.h:56-103 | no step reads or writes the block after it was freed, and it is freed at most once, whatever is half done |
| RefCountSafety.QuietCounts | include/nx_shared_ptr.h:46-103 | with no operation under way the counters are the numbers of handles, and block freed or leaked iff no handle is left |
| RefCountSafety.CopyAlone | include/nx_shared_ptr.h:46-53 | undisturbed, a copy makes one owner and changes nothing else |
| RefCountSafety.WeakAlone | include/nx_shared_ptr.h:72-75 | undisturbed, a weak copy makes one weak handle and changes nothing else |
| RefCountSafety.LockAlone | include/nx_shared_ptr.h:77-95 | undisturbed, an upgrade makes one owner iff one is left, and otherwise changes nothing |
| RefCountSafety.DropAlone | include/nx_shared_ptr.h:56-70 | undisturbed, a release deletes the object with the last owner and the block with the last handle |
| RefCountSafety.WeakDropAlone | include/nx_shared_ptr.h:97-103 | undisturbed, a weak release deletes the block with the last handle |
| RefCountSafety.CountersBounded | include/nx_shared_ptr.h:46-103 | the counters stay within the numbers of handles and threads, so their width does not matter below 2^31 |
| RefCountSafety.NoLeakWhenReleasesApart | include/nx_shared_ptr.h:56-70 | runs in which releases of owners do not overlap never leak the block |
| RefCountSafety.BlockFreedWhenReleasesApart | include/nx_shared_ptr.h:56-103 | such a run that ends with no handle has freed block and object exactly once |
| RefCountSafety.LeakIff | include/nx_shared_ptr.h:66-69 | a step leaks the block iff it discards its decrement with no handle and no other unit of weakCount left |
| RefCountSafety.OverlappingReleasesLeak | include/nx_shared_ptr.h:56-70 | from every quiet state with at least two owners, any weak handles and two threads, some run ends with no handle and the block never freed |
| RefCountSafety.TwoOwnersReachable | include/nx_shared_ptr.h:46-53 | such states are reachable |
| RefCountSafety.SpinLockIsNeeded | include/nx_shared_ptr.h:77-95 | with the lock step removed, some run from a fresh block deletes the object and then lets an upgrade succeed |
| SharedPointers.SetShared | include/nx_shared_ptr.h:159-192 | taking one block, giving up another and pointing a handle from one to the other keeps every count exact |
| SharedPointers.SetWeak | include/nx_shared_ptr.h:260-283 | the same for weak handles |
| SharedPointers.RemoveShared | include/nx_shared_ptr.h:171-174 | destroying an owner keeps every count exact |
| SharedPointers.RemoveWeak | include/nx_shared_ptr.h:268-272 | destroying a weak handle keeps every count exact |
| SharedPointers.PointerHeap.Release | include/nx_shared_ptr.h:56-70 | the counters, and whether object and block are deleted |
| SharedPointers.PointerHeap.WeakRelease | include/nx_shared_ptr.h:97-103 | the counter, and whether the block is deleted |
| SharedPointers.PointerHeap.WeakLock | include/nx_shared_ptr.h:77-95 | succeeds iff useCount is positive, and then acquires; otherwise leaves every counter as it was |
| SharedPointers.PointerHeap.TakeOwnership | include/nx_shared_ptr.h:224-233 | null pointer, existing block and new block |
| SharedPointers.PointerHeap.DoFromRaw | include/nx_shared_ptr.h:141-145 | the handle owns a new block made for the pointer; other handles stay; counts stay exact |
| SharedPointers.PointerHeap.DoCopy | include/nx_shared_ptr.h:159-163 | the new handle is equal to its source; other handles stay; counts stay exact |
| SharedPointers.PointerHeap.DoAssign | include/nx_shared_ptr.h:165-169 | the target becomes equal to the source, itself included; other handles stay; counts stay exact |
| SharedPointers.PointerHeap.DoReset | include/nx_shared_ptr.h:176-185 | the handle becomes null; other handles stay; counts stay exact |
| SharedPointers.PointerHeap.DoResetTo | include/nx_shared_ptr.h:176-185 | the handle alone owns a new block made for the pointer, or is null; other handles stay; counts stay exact |
| SharedPointers.PointerHeap.DoMakeWeak | include/nx_shared_ptr.h:260-266 | the weak handle is equal to its source; other handles stay; counts stay exact |
| SharedPointers.PointerHeap.DoLock | include/nx_shared_ptr.h:285-293 | the new handle is equal to the weak one iff some owner of the block is left, else null; other handles stay; counts stay exact |
| SharedPointers.PointerHeap.DoWeakReset | include/nx_shared_ptr.h:274-283 | the weak handle becomes null; other handles stay; counts stay exact |
| SharedPointers.PointerHeap.Do | include/nx_shared_ptr.h:141-293 | every operation does to the handles what the counter-free meaning says, and keeps, for every block, useCount = owners, weakCount = owners + weak handles, object deleted by it iff it has no owner, block deleted iff it has no handle |
| SharedPointers.Execute | include/nx_shared_ptr.h:141-293 | the same after any script of operations; and if no raw pointer was handed over twice, each object is deleted at most once, and exactly when no handle owns it |
| SharedPointers.DeletersRecorded | include/nx_shared_ptr.h:56-70 | the deletions the blocks record are those of the blocks made for the object that have no owner |
| SharedPointers.OnceIff | include/nx_shared_ptr.h:141-293 | however the remaining owners are destroyed, each object is deleted at most once and exactly with its last owner iff the script hands no raw pointer over twice |
| SharedPointers.OwnedTwice | include/nx_shared_ptr.h:141-174 | two owners made apart from one pointer: destroying one deletes the object under the other |
| PoolModel.LayoutProper | include/nms_util.h:726-740 | the constructor's sizes are aligned and a region is its header plus capacity elements |
| PoolModel.FirstSlotFits | include/nms_util.h:776-799 | the slot taken from a new region lies inside it iff the region capacity is at least one |
| PoolModel.CreateInv | include/nms_util.h:726-740 | a new pool meets the pool invariant |
| PoolModel.AllocateInv | include/nms_util.h:776-799 | allocate, on all three branches, keeps the invariant and returns a slot that was not live |
| PoolModel.FreeInv | include/nms_util.h:813-821 | free of a live slot or null keeps the invariant |
| PoolModel.WriteInv | include/nms_util.h:776-821 | a client's write into a live slot keeps it: it cannot reach the free list or a region link |
| PoolModel.ResetInv | include/nms_util.h:759-771 | reset keeps it with one region and no live slot |
| PoolModel.LiveSlotsAreSafe | include/nms_util.h:726-821 | after every legal run live slots are disjoint, each inside one region past its header, apart from every free slot; the free list is a finite chain without repetition |
| PoolModel.Conservation | include/nms_util.h:726-864 | on reset-free runs regions * capacity = elements + free list + unused slots in the current region, whose number is given by the bump offset, and elements = live slots |
| PoolModel.GrowsOnlyWhenFull | include/nms_util.h:776-799 | a new region is taken only when every slot of every region is live |
| PoolModel.FreedIsReusedFirst | include/nms_util.h:776-821 | the slot freed last is allocated next, and the pool is then as it was |
| PoolModel.TakenInOrder | include/nms_util.h:776-799 | with no slot freed the current region is handed out slot by slot from its header on |
| PoolModel.ElementCountIff | include/nms_util.h:759-771 | after any run the element count is the number of live slots iff every reset of the run was made with no slot live |
| PoolModel.ElementCountGoesStale | include/nms_util.h:759-771 | one allocation and a reset leave no live slot and an element count of one |
| ObjectPool.ObjectMemoryPool.constructor | include/nms_util.h:726-740 | the code builds the model's new pool |
| ObjectPool.ObjectMemoryPool.Allocate | include/nms_util.h:776-799 | the code does what the model does; the slot returned is new and the invariant holds |
| ObjectPool.ObjectMemoryPool.Free | include/nms_util.h:813-821 | the code does what the model does and keeps the invariant |
| ObjectPool.ObjectMemoryPool.GetRegionCount | include/nms_util.h:854-864 | walking the region chain terminates and counts the regions |
| ObjectPool.ObjectMemoryPool.FreeChain | include/nms_util.h:745-771 | the loop returns exactly the chained regions, each once, and leaves the others untouched |
| ObjectPool.ObjectMemoryPool.Reset | include/nms_util.h:759-771 | only the current region stays; the invariant holds |
| ObjectPool.ObjectMemoryPool.Destroy | include/nms_util.h:745-754 | every region is returned, none twice: no memory is left |
| SyncPool.StepKeepsLocked | include/nms_util.h:883-891 | the spin lock is held by exactly the thread inside |
| SyncPool.StepKeepsSys | include/nms_util.h:883-930 | every step, passing an object to another thread included, keeps the shared pool on the way from the committed pool to the next one, and the slots of threads live and disjoint |
| SyncPool.InterleavingsAreSequential | include/nms_util.h:878-930 | after every interleaving, whoever frees what, the committed operations are a legal sequential run whose result is the pool whenever the lock is free; the slots threads hold are live, none is held twice, and no two share storage |
| SyncPool.AccessesStayInMemory | include/nms_util.h:905-930 | in no interleaving does a thread load or store outside the pool's memory |
| SyncPoolCalls.CallsAreCarriedOut | include/nms_util.h:878-930 | in every interleaving each thread's calls end once and in order, with the slots the sequential run gives them, and the live slots are exactly those live at the start and those threads own |
| SyncPoolCalls.TakeAlone | include/nms_util.h:905-911 | undisturbed, allocate does to the pool what the plain pool does and gives the thread the slot |
| SyncPoolCalls.GiveAlone | include/nms_util.h:925-930 | undisturbed, free does to the pool what the plain pool does and takes the slot from the thread |
| SyncPoolCalls.StepAdvances | include/nms_util.h:883-930 | every step of a call leads nearer to its end unless the lock is taken |
| MovingAverage.UpdateExpMovingAverage | include/nms_util.h:5862-5868 | the new value is the exact weighted mean rounded down, and lies between the old average and the input |
| MovingAverage.DriftIsBounded | include/nms_util.h:5862-5868 | for every input sequence the average never exceeds the exact one and trails it by less than 2048/(2048-exp) units |
| MovingAverage.AverageInRange | include/nms_util.h:5862-5868 | inputs in [lo, hi] keep the average in [2048 lo, 2048 hi] |
| MovingAverage.NoOverflowIff | include/nms_util.h:5851-5868 | no intermediate overflows on any run from a range iff both its ends, scaled twice, fit the type |
| MovingAverage.SafeValues | include/nms_util.h:5851-5868 | for 64 bits that is -2^41 <= n < 2^41, for 32 bits -2^9 <= n < 2^9 |
| MovingAverage.GapBelow | include/nms_util.h:5862-5868 | below a constant input an update never passes it or moves away, and changes nothing exactly when gap*(2048-exp) < 2048 |
| MovingAverage.SettlesFromAbove | include/nms_util.h:5862-5868 | under constant input from above the average comes down by at least one unit a step and then is exact |
| MovingAverage.SettlesFromBelow | include/nms_util.h:5862-5868 | from below it comes to rest exactly min(gap, floor(2047/(2048-exp))) units short |
| MovingAverage.RestsBelow | include/nms_util.h:5862-5868 | with the slowest weight the average of input 1 rests 2047 units below it |
| Gauge.GaugeData.Update | include/gauge_helpers.h:70-88 | afterwards the fields mean the calls so far: last input, extremes since the last reset, average of all inputs |
| Gauge.GaugeData.Reset | include/gauge_helpers.h:90-94 | the same with the reset counted; current value, average and null flag stay |
| Gauge.Replay | include/gauge_helpers.h:51-94 | so they do after any history of updates and resets |
| Gauge.CurrentIsLast | include/gauge_helpers.h:70-88 | null iff nothing was fed in, else the current value is the last input |
| Gauge.ExtremesAreOfWindow | include/gauge_helpers.h:70-94 | min and max are the extremes since the last reset, counting the value current at that reset |
| Gauge.AverageIsOfInputs | include/gauge_helpers.h:70-94 | the average is that of all inputs, resets or not |
| Gauge.GaugeAverageIsClose | include/gauge_helpers.h:70-88 | and so within range and within the drift bound over any history |
| Buffers.OwnersAreUnique | include/nms_util.h:566-706 | every heap block has exactly one owner |
| Buffers.InBoundsIff | include/nms_util.h:655-676 | realloc's copy out of the heap block stays inside it for every size iff the block is not shorter than the internal buffer |
| Buffers.ShortBlock | include/nms_util.h:655-705 | three calls reach a buffer whose realloc to the internal size reads past its block |
| Buffers.BufferHeap.DoFrom | include/nms_util.h:580-606 | the contents are the data, inline or on the heap; nothing else changes |
| Buffers.BufferHeap.DoCopy | include/nms_util.h:608-620 | the copy has the same contents in storage of its own |
| Buffers.BufferHeap.DoMove | include/nms_util.h:622-635 | contents and block pass over, the source is empty |
| Buffers.BufferHeap.DoDestroy | include/nms_util.h:637-640 | the block is returned, other buffers keep their contents |
| Buffers.BufferHeap.DoRealloc | include/nms_util.h:655-676 | the common prefix stays on all four switches between inline and heap |
| Buffers.BufferHeap.DoSet | include/nms_util.h:678-682 | the contents are the data |
| Buffers.BufferHeap.DoSetPreallocated | include/nms_util.h:684-689 | the old block is returned and the client's block becomes the contents |
| Buffers.BufferHeap.DoTake | include/nms_util.h:691-705 | the client owns a block with the contents, the buffer is empty |
| Buffers.Do | include/nms_util.h:574-705 | every operation does to the bytes what it does to plain sequences |
| Buffers.Execute | include/nms_util.h:574-705 | after any script every buffer holds the sequence of the plain meaning and every block has one owner |
| Buffers.ScriptIsExact | include/nms_util.h:574-705 | after a script that grows no buffer the plain meaning knows every byte, so the bytes held are exactly those |
| CasCounter.CommitExtendsHistory | include/nxatomic.h:50-78 | an exchange that saw the current value extends an atomic history |
| CasCounter.HistoryAt | include/nxatomic.h:50-78 | in an atomic history each result is the start plus all addends up to its own, modulo 2^64 |
| CasCounter.StepKeepsInv | include/nxatomic.h:50-78 | every step keeps: value = start + committed addends modulo 2^64, and each thread's calls, commits and returns in step one by one |
| CasCounter.RefinesAtomicAdd | include/nxatomic.h:50-78 | in every interleaving, whatever the plain reads return, the commits are a history of an atomic add; each thread's calls commit their own addends once, in order, and return the results of their own commits in order |
| CasCounter.CommitsIffSeen | include/nxatomic.h:50-78 | an exchange commits iff the value read is the counter's; the counter changes in no other step |
| CasCounter.AddAlone | include/nxatomic.h:50-78 | undisturbed, a call adds its addend and returns the new value |
| CasCounter.StepAdvances | include/nxatomic.h:50-78 | every step of a call leads nearer to its end unless the counter is not what it read |
| ConditionVariable.StepKeepsInv | include/nms_threads.h:1911-2028 | every step keeps mutual exclusion, what is left of each timeout, the calls decided a legal run of the sequential condition with the same flag, and each thread's calls, decisions and returns in step one by one |
| ConditionVariable.RefinesSequential | include/nms_threads.h:1911-2028 | in every interleaving the calls decided form a legal run of the sequential condition, in which a wait succeeds iff the flag is set and fails only after its timeout; each thread's calls are decided once, in order, with their own outcomes |
| ConditionVariable.FlagIsPending | include/nms_threads.h:1911-2028 | the flag is set iff some set has no pulse, reset or, unless broadcast, wait after it |
| ConditionVariable.Conserved | include/nms_threads.h:1911-2028 | in every legal run sets = successful waits + merged + cancelled + pending |
| ConditionVariable.WaitsNeverExceedSets | include/nms_threads.h:1911-2028 | so in every interleaving successful waits never exceed sets |
| ConditionVariable.WaitSucceedsIffSet | include/nms_threads.h:1990-2028 | a test of the flag succeeds iff a set is pending, fails iff none is and the wait has slept, in all, at least its timeout, and else sleeps |
| ConditionVariable.CallAlone | include/nms_threads.h:1911-2003 | undisturbed, set leaves the flag set, pulse and reset leave it clear, and a wait on a set flag succeeds and leaves it set iff broadcast |
| ConditionVariable.WokenAlone | include/nms_threads.h:2005-2028 | a waiter that wakes undisturbed succeeds if the flag is set, fails if its timeout is slept, and else sleeps on |
| ConditionVariable.StepAdvances | include/nms_threads.h:1911-2028 | every step of a call leads nearer to its return, except that a wait that finds no set sleeps |
| EipMessage.SwapIsWire16 | include/ethernet_ip.h:43-50 | a swapped load or store is the little-endian wire format on both kinds of host |
| EipMessage.SwapIsWire32 | include/ethernet_ip.h:55-62 | the same for 32 bits, loads and stores |
| EipMessage.WireIsLittleEndian | include/ethernet_ip.h:382-404 | the wire format has the least significant byte first |
| EipMessage.HostOrder | include/ethernet_ip.h:43-62 | a host loads what it stored, and the two kinds of host store in opposite orders |
| EipMessage.Read16 | include/ethernet_ip.h:349-356 | the value whose wire format is at the offset, zero where it does not fit, and a stray load exactly where the guard wraps |
| EipMessage.Read32 | include/ethernet_ip.h:357-364 | the same for 32 bits |
| EipMessage.GuardIsBoundsCheck | include/ethernet_ip.h:349-411 | the guard is a bounds check iff the sum does not wrap into the data |
| EipMessage.LastOffsetStrays | include/ethernet_ip.h:349-356 | a 16-bit read at the largest offset passes the guard in every message with data |
| EipMessage.Message.WriteData | include/ethernet_ip.h:369-376 | the bytes at the write offset and nothing else, or no change if they do not fit |
| EipMessage.Message.WriteDataAsUInt8 | include/ethernet_ip.h:377-381 | the same for one byte |
| EipMessage.Message.WriteDataAsUInt16 | include/ethernet_ip.h:382-389 | the same, in wire format |
| EipMessage.Message.WriteDataAsUInt32 | include/ethernet_ip.h:390-404 | the same, in wire format on both branches |
| EipMessage.Message.AdvanceWritePosition | include/ethernet_ip.h:405-411 | returns the old position; skips if that fits; moves back iff the sum wraps |
| EipMessage.SkipGoesBack | include/ethernet_ip.h:405-411 | one byte written, then the largest skip: the position is zero again |
| EipMessage.Message.CompleteDataWrite | include/ethernet_ip.h:412-416 | data size is the write offset, the header has its low sixteen bits in wire format |
| EipMessage.Message.constructor | src/ethernetip/libethernetip/message.cpp:44-58 | the block, header field by header field in its byte order, with a zeroed data area |
| EipMessage.Message.FromNetwork | src/ethernetip/libethernetip/message.cpp:29-39 | a copy whose data size is the header's length on both kinds of host; good iff that much was received |
| EipMessage.CompletedFields | include/ethernet_ip.h:412-416 | completing a message changes its length field and no other field of the header, nor the data |
| EipMessage.LengthIsInItsField | src/ethernetip/libethernetip/message.cpp:29-39 | the data size of a received message is read from its length field |
| EipMessage.WrittenFields | include/ethernet_ip.h:368-416 | what is sent for a new message after any run of writes has every header field in its place and the accepted writes as data |
| EipMessage.RunWrites | include/ethernet_ip.h:368-411 | for every run of writes the data from the start offset on are the concatenated encodings of the accepted ones and nothing else changes |
| EipMessage.WriteAll | include/ethernet_ip.h:368-411 | a message object written by any run of calls is in the state that run defines |
| EipMessage.ReadBack | include/ethernet_ip.h:348-411 | reading at the recorded offset of any accepted write returns it, on both kinds of host |
| EipMessage.FrameLengthIff | include/ethernet_ip.h:412-416 | the header announces the data size iff it is below 65536 |
| EipMessage.LongFrameLooksEmpty | include/ethernet_ip.h:412-416 | 65536 data bytes are announced as none |
| EipMessage.ReceivedReadsBack | include/ethernet_ip.h:348-416 | written on one host, completed, sent and received on another of either byte order, every accepted write reads back |
| EipMessage.HandleOnWireIff | src/ethernetip/libethernetip/message.cpp:44-58 | the session handle is sent in wire format iff the host is little-endian or the handle is a byte palindrome |
| EipMessage.HandleOneIsReversed | src/ethernetip/libethernetip/message.cpp:44-58 | handle 1 is sent reversed by a big-endian host |
| EipReceiver.FramesOfJoined | src/ethernetip/libethernetip/message.cpp:159-175 | messages sent one after the other are exactly the frames of the stream |
| EipReceiver.SentIsFrameIff | include/ethernet_ip.h:412-416 | what is sent is one frame iff its data are shorter than 65536 bytes |
| EipReceiver.MessageReceiver.ReadMessageFromBuffer | src/ethernetip/libethernetip/message.cpp:159-175 | delivers iff a whole message is buffered, and takes exactly that message off the window |
| EipReceiver.MessageReceiver.Fill | src/ethernetip/libethernetip/message.cpp:188-199 | compaction and one reception lose, double and reorder nothing |
| EipReceiver.MessageReceiver.ReadMessage | src/ethernetip/libethernetip/message.cpp:180-202 | takes the next message off the stream; over a steady connection it delivers iff the stream starts with a whole message of at most 8192 bytes |
| EipReceiver.ReceiveOne | src/ethernetip/libethernetip/message.cpp:180-202 | a frame that is all there is delivered iff it fits the buffer |
| EipReceiver.LargeMessageIsStuck | src/ethernetip/libethernetip/message.cpp:180-202 | a whole frame of 8192 bytes is delivered and one of 8193 is not |
| EipReceiver.ReceiveAll | src/ethernetip/libethernetip/message.cpp:159-202 | repeated reading delivers the frames in order up to the first that is too large |
| EipReceiver.AllDelivered | src/ethernetip/libethernetip/message.cpp:159-202 | if what is left starts with no message that fits, all messages sent were delivered unchanged, provided none is too large |
| EipReceiver.Converse | src/ethernetip/libethernetip/message.cpp:29-202 | messages written on one host, sent one after the other and received on another of either byte order arrive one by one, and every accepted write of each reads back |
| JsonFlags.BooleanObject | include/nxjson.h:388-394 | each name of the table, true iff the flags meet the last mask of that name |
| JsonFlags.ObjectGetFlags | include/nxjson.h:399-408 | exactly the bits named by true fields |
| JsonFlags.ObjectUpdateFlags | include/nxjson.h:413-428 | each bit takes the value of the last present field that names it; a bit that none names stays |
| JsonFlags.ObjectUpdateFlag | include/nxjson.h:472-483 | rejects a non-boolean field, ignores an absent one, else collects the low 32 bits of the mask |
| JsonFlags.CollectFlags | src/server/core/node.cpp:10817-10824 | all or nothing: rejects iff some named field is not boolean, else applies the collected low 32 bits of set and mask |
| JsonFlags.RoundTripIff | include/nxjson.h:379-408 | flags to JSON and back is flags & M for all flags iff the table is faithful |
| JsonFlags.PatchIff | include/nxjson.h:379-428 | patching g with the JSON of f replaces in g exactly the bits of M by those of f, for all f and g, iff each bit is alone in the last entry of its owner's name |
| JsonFlags.ProperTables | include/nxjson.h:379-428 | both hold for tables of distinct names and single bits |
| JsonFlags.TwoBitsDoNotRoundTrip | include/nxjson.h:388-428 | an entry with two bits: one of them comes back, and patches, as both |
| JsonFlags.CollectIff | include/nxjson.h:413-483 | collecting and applying equals patching, for all boolean objects and 32-bit flags, iff no two names share a bit and all bits are below 32 |
| JsonFlags.SharedBitDiffers | include/nxjson.h:413-483 | a bit under two names: the first true and the last false give different flags |
| JsonFlags.WideBitDiffers | include/nxjson.h:413-483 | a bit from 32 on is set by patching and not by collecting |
| Dedup.IntegerArray.Remove | src/libnetxms/array.cpp:322-332 | deletes the position, or nothing if it is out of range |
| Dedup.IntegerArray.Deduplicate | include/nms_util.h:2246-2259 | terminates with exactly the first occurrences |
| Dedup.FirstsMeaning | include/nms_util.h:2246-2259 | those are the same values, each once, ordered by first occurrence |
| NetMask.BitsInWord | include/nms_util.h:4619-4624 | terminates with the reach of the last one bit |
| NetMask.BitsInBytes | include/nms_util.h:4629-4642 | full bytes count eight, the first other byte up to its last one bit |
| NetMask.PrefixBytesJoined | include/nms_util.h:4629-4642 | the byte masks of a prefix length are the bits of the prefix mask |
| NetMask.PrefixMaskHasItsLength | include/nms_util.h:4629-4642 | the byte form returns k for every k-bit prefix mask of any number of bytes |
| NetMask.ContiguousIff | include/nms_util.h:4619-4624 | a word is contiguous iff it is the prefix mask of the length returned |
| NetMask.FormsAgreeIff | include/nms_util.h:4619-4642 | both forms agree iff only zeros follow the first byte that is not full |
| NetMask.FormsAgreeOnContiguous | include/nms_util.h:4619-4642 | both forms return the same length on every contiguous mask, and the mask is the prefix mask of that length |
| NetMask.FormsDiffer | include/nms_util.h:4619-4642 | 0x00 0x80 has length 0 in one form and 9 in the other |

## Left out

- Memory ordering below sequential consistency, fairness and liveness of the spin locks.
- The width of the reference counters and of `m_elements`: `CountersBounded` bounds the former by handles and threads.
- Reuse of an address by a later object: a raw pointer stands for one object throughout.
- Implicit copies of `weak_ptr`, which the file does not define, and `shared_ptr` built from an explicit null pointer.
- `shared_ptr` casts, comparison, `make_shared`, and handles to a base class of the object.
- `shared_ptr::swap` as an operation of clients: it exchanges two handles; assignment through it is modelled.
- Failure of the memory allocator, and overflow of `numElements * sizeof(T)` in `Buffer`, whose sizes are in bytes here.
- `Buffer::set` with data inside the same buffer, and preallocated blocks smaller than the internal buffer beyond `InBoundsIff`.
- `ObjectMemoryPool::create` and `destroy` run constructors and destructors of elements; `getMemoryUsage` and `getRegionCapacity` only compute.
- ObjectMemoryPool.Allocate: memory is words of eight bytes, so a client's write of part of a word is a write of the whole word.
- `EMA_EXP` is floating point; any weight from 0 to 2047 is covered, 2048 (an interval of zero) is not.
- `Condition` with pthreads and GNU Pth, whose waits do not test the flag again; whether `pulse` wakes a waiter; clocks, which are arbitrary elapsed times here.
- ConditionVariable.WaitSucceedsIffSet: says nothing about a sleeping thread being woken, because wakeups may happen at any time in the model.
- `readDataAsInetAddress`, length-prefixed strings and the CPF item reader of `EIP_Message`.
- The socket is a stream of bytes that arrive in arbitrary pieces; timeouts and errors are receptions of nothing.
- JSON values other than booleans are one value here; the strict updates of integer and boolean fields are not modelled.
- Flag words are sets of bit numbers; the 64-bit width of tables and patches does not appear, as no operation reaches past it.
- Arrays that own their objects: `deduplicate` is on integers, where removal destroys nothing.
- Everything else in NetXMS: the server, agents, protocols, and the classes whose code is in other files.
