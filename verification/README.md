# Kernel pieces and AT32 drivers, verified

This project models the parts of the RT-Thread kernel and of the AT32 drivers
whose correctness does not show in any one function body: protocols between
threads, interrupt handlers and DMA engines, intrusive lists in raw memory, and
arithmetic at the edge of its word. `dafny verify dfyconfig.toml` checks it.

| files | what they model |
|---|---|
| `Mempool`, `PoolWaiters`, `PoolMemory` | the fixed-size block pool: its free list in raw memory, its waiting threads, and both together |
| `LlSlist`, `RefCount` | compare-exchange loops of `rtatomic.h`: the lock-less list and the reference count |
| `EmacRing`, `EmacTx`, `EmacRx`, `EmacRoundTrip` | the Ethernet descriptor rings, from pbuf chain to pbuf chain |
| `I2c` | chunked I2C transfers by interrupt and by DMA |
| `CpusLock`, `ConsoleLock`, `HookList`, `Nesting` | the global CPU lock, the console lock, and hook lists that are walked without their lock |
| `List`, `Slist` | the circular and the singly linked list |
| `UsartDma`, `SerialRing` | reception through a circular DMA buffer, from the DMA counter to the bytes copied out |
| `Pwm`, `AlignedHeap`, `Arith`, `Wrappers` | PWM register arithmetic, aligned allocation, and shared helpers |

Two styles occur. Code that runs alone on its data is a class or a method that
changes the same fields by the same branches, proved against functions of the
old state. Code that is interrupted or preempted is a step system: each access
to a shared word, or each region under a lock, is one step, a run is any
interleaving, and results hold in every state that any run reaches. Where the
order of accesses under a lock does not matter the step calls the function that
a class method is proved equal to (`ConsoleLock.Console`, `I2c.Handle`,
`Mempool.Pool`, `UsartDma.Uart`, `SerialRing.RingBuffer`).

## What does not hold

Some properties that one would expect fail; the exact condition is proved for each.

- A freed block can be stranded while a thread waits for it: when the first
  waiter's timer has expired and its callback has not run yet, the free cannot
  wake it and tries nobody else. No state of a run has a stranded block exactly if
  every free of it meets no waiter, one it can wake, or enough woken threads
  (`NothingStrandedIff`); `StrandedRun` is a run with one.
- The assertion in the timeout callback of a thread fails exactly when a dequeue
  has resumed the thread after its timer expired and it is not waiting again
  (`FailsIff`); `FailedRun` is a run where it does.
- `rt_mp_init` on an area without room for one block stores the terminating NULL
  in front of the area (`InitStaysInsideIff`), and `rt_mp_create` stores behind
  its area when the 32-bit product of its arguments overflows
  (`CreateStaysInsideIff`).
- The lock-less list loses a node when one is enqueued again while a dequeue that
  has read it is under way. After any disciplined run, one such call is enough,
  and no other step can do it (`DisciplineIff`).
- The last 4 lengths that a transmit ring can send are too long for a receive
  ring of the same size, because of the frame check sequence of clause 3.2.9 of
  IEEE 802.3 (`ReceivableIff`). `rt_at32_emac_tx` answers RT_EOK also when it
  drops the frame.
- In I2C interrupt mode the handler looks at TCRLD before it takes a received
  byte. A receive of more than MAX_TRANSFER_CNT bytes can jam for good with the
  last byte of a chunk in the register (`CanJamIff`, `JammedForever`), and on
  hardware that raises TCRLD together with that byte it can never end
  (`CanFinishIff`).
- In both modes a refusal of the last byte sent is not reported as an error
  (`CanHideRefusalIff`, `CanHideDmaRefusalIff`); a transfer that ends without one
  has passed all its bytes exactly when nothing was refused (`EndsCleanIff`,
  `DmaPassedIff`). A DMA transfer of no bytes never ends (`CanFinishDmaIff`).
- Opening a UART raises a configured DMA buffer of 1 to 31 bytes to 32, but
  `last_index` keeps the configured size, and the first report is wrong
  (`SumOfReportsIff`, `RaisedFails`).
- A circular DMA buffer whose size is not a multiple of RT_ALIGN_SIZE is cut to
  one by the ring buffer over it but not by the DMA; the bytes handed on are then
  not those received. They are in every run exactly when the configured size is 0
  or at least 32, and a multiple of RT_ALIGN_SIZE (`FaithfulIff`).
- The period that `drv_pwm_get` reads back is far too short exactly when a 32-bit
  product overflows (`PeriodReadBackIff`).
- `rt_malloc_align` keeps only alignments that round to a power of two
  (`AlignmentKeptIff`), and the area lies in its block exactly when the size
  computation does not wrap around (`PlaceIff`).
- The reference count is wrong once 2^32 references exist (`CountIsHeldIff`,
  `WordOverflows`), and the console's last release fails its level check exactly
  when its owner is not at the level of the first take (`LastReleaseCleanIff`),
  as when it has entered a critical section since (`ReleaseInsideSection`).

## Model

| member | source | states |
|---|---|---|
| `Mempool.AllocTakesFirst` | rt-thread/src/mempool.c:345-356 | Taking a block from memory that holds the free list returns the first listed block, 4 bytes behind its header, and leaves memory that holds the rest; with an empty list nothing changes and the result is NULL |
| `Mempool.FreePutsFirst` | rt-thread/src/mempool.c:381-394 | Returning a handed-out block leaves memory that holds the list with that block in front |
| `Mempool.WriteKeepsList` | rt-thread/src/mempool.c:111-128 | Whatever the owner of a block stores in its user part, no header changes |
| `Mempool.RunKeepsList` | rt-thread/src/mempool.c:345-394 | After any sequence of allocations, frees of handed-out blocks and writes by owners, the chain from block_list is NULL-terminated, of distinct blocks, as long as block_free_count, and all other headers point to the pool |
| `Mempool.ListNonNull` | rt-thread/src/mempool.c:348-350 | So the assertion on block_list never fails, and the block taken lies inside the area |
| `Mempool.InitStaysInsideIff` | rt-thread/src/mempool.c:104-127 | The terminating NULL of rt_mp_init lies inside the area if and only if there is room for one block, also where rounding the block size up wraps around |
| `Mempool.CreateStaysInsideIff` | rt-thread/src/mempool.c:195-229 | The last header that rt_mp_create stores lies inside what it allocated if and only if the 32-bit product of block size and count does not overflow |
| `Mempool.AlignUpIs` | rt-thread/src/mempool.c:106-107 | A block size is rounded to a multiple of RT_ALIGN_SIZE that is not below it and less than RT_ALIGN_SIZE above it, for all sizes that do not wrap around |
| `Mempool.BlockCountIs` | rt-thread/src/mempool.c:111 | The count is the number of blocks with headers that the aligned size has room for: they fit, and one more does not |
| `Mempool.RoomyIs` | rt-thread/src/mempool.c:117-127 | The bytes that were asked for behind every user pointer end at or before the next block and inside the area |
| `Mempool.Pool.Init` | rt-thread/src/mempool.c:84-132 | rt_mp_init lists all blocks the area has room for, in address order, one more having none; the bytes asked for behind each user pointer end at or before the next block |
| `Mempool.Pool.Create` | rt-thread/src/mempool.c:176-233 | rt_mp_create gives no pool exactly when the object allocation or rt_malloc gives no memory, and else a pool with all blocks listed, each with room for the bytes asked for |
| `Mempool.Pool.ThreadList` | rt-thread/src/mempool.c:118-128 | The loop the two share leaves memory that holds all blocks in address order |
| `Mempool.Pool.AllocNow` | rt-thread/src/mempool.c:281-360 | With a block free, or with time 0: returns the first listed block or NULL, and the new memory is the allocation function of the old |
| `Mempool.Pool.FreeNow` | rt-thread/src/mempool.c:372-406 | The new memory is the free function of the old; NULL changes nothing |
| `PoolWaiters.BlocksConserved` | rt-thread/src/mempool.c:281-406 | In every interleaving of callers, frees, timer expiries, callbacks and detaches, each block is on the list or handed out once, and the counter is the length of the list |
| `PoolWaiters.NothingStrandedIff` | rt-thread/src/mempool.c:281-406 | In every run: in all its states a waiting thread implies that the free count is at most the number of threads woken with RT_EOK and not yet back at the loop test, if and only if every free of the run meets no waiter, a first waiter it can wake, or more woken threads than free blocks |
| `PoolWaiters.OthersKeepNoStrand` | rt-thread/src/mempool.c:141-161 | No step other than a free, a detach included, breaks that property |
| `PoolWaiters.FreeStrandsIff` | rt-thread/src/mempool.c:391-405 | A free keeps the property if and only if nobody waits, the first waiter can be resumed, or woken threads already outnumber the free blocks |
| `PoolWaiters.StrandedRun` | rt-thread/src/timer.c:488-548 | A reachable state with a free block, a waiting thread and nobody on the way, because a timer was off the timer list with its callback still to run |
| `PoolWaiters.FailsIff` | rt-thread/src/thread.c:146-175 | In every run a step makes an assertion fail if and only if it is the callback of a thread that a dequeue resumed while that callback was still to run and that is not waiting again |
| `PoolWaiters.FailedRun` | rt-thread/src/thread.c:146-175 | A run where that happens: two frees between the expiry of a timer and its callback |
| `PoolWaiters.DequeueEffect` | rt-thread/src/ipc.c:105-146 | A dequeue resumes the first waiter and counts it as woken if its timer can be stopped, and otherwise leaves the queue alone and counts a miss |
| `PoolWaiters.StepKeepsInv` | rt-thread/src/scheduler_comm.c:228-270 | Every step keeps the agreement of queue, thread states, timers, blocks and counter |
| `PoolWaiters.CallsAnswer` | rt-thread/src/mempool.c:281-380 | In every run a call woken with an error answers NULL when it runs again, neither sleeping nor taking a block; NULL is answered for no other reason than that, or an empty pool with no time left, the time left being the time called with less all ticks slept and at least 0; the blocks handed out are those answered and not freed |
| `PoolWaiters.LongestWaiterFirst` | rt-thread/src/mempool.c:310-322 | In every run the waiters stand in the order in which they went to sleep, and a free that wakes a thread wakes the one asleep the longest |
| `PoolWaiters.DetachWakes` | rt-thread/src/mempool.c:151-153 | In every run a detach leaves no waiter if and only if every waiter can be resumed, and then each is woken with an error, on which its call answers NULL |
| `PoolWaiters.TakeKeepsInv` | rt-thread/src/mempool.c:291-360 | So does the locked region of rt_mp_alloc when it takes a block or gives up |
| `PoolWaiters.ResumeAllKeepsInv` | rt-thread/src/ipc.c:165-190 | So does waking all waiters with an error on detach |
| `PoolMemory.RunAgrees` | rt-thread/src/mempool.c:281-406 | In every run of the threads, with owners writing into their blocks in between, the raw memory holds exactly the free list of the abstract pool |
| `PoolMemory.HeldApart` | rt-thread/src/mempool.c:345-360 | No block is handed out twice and the user areas of two handed-out blocks do not overlap, in every run from an initialised pool |
| `LlSlist.Linearizable` | rt-thread/include/rtatomic.h:243-264 | In every interleaving of loads, stores and compare-exchanges of any number of enqueuers and dequeuers, with no node enqueued again under a dequeue that read it, the effects are a legal run of a sequential stack, the chain from the head is that stack, and each operation takes effect between its call and its return with the value it returns |
| `LlSlist.ReturnedOncePerEnqueue` | rt-thread/include/rtatomic.h:243-264 | Pops of a node never outnumber its pushes; the difference says whether it is listed |
| `LlSlist.StepKeepsInv` | rt-thread/include/rtatomic.h:243-264 | Every single load, store and compare-exchange keeps the link between memory, program counters and history |
| `LlSlist.PopKeepsInv` | rt-thread/include/rtatomic.h:260-263 | A compare-exchange of a dequeue that succeeds pops the top, because the successor it loaded is still current |
| `LlSlist.EnqueueAlone` | rt-thread/include/rtatomic.h:243-251 | An undisturbed enqueue pushes its node |
| `LlSlist.DequeueAlone` | rt-thread/include/rtatomic.h:253-264 | An undisturbed dequeue of a nonempty list pops and returns its first node |
| `LlSlist.ReturnsAlone` | rt-thread/include/rtatomic.h:243-264 | From every reachable state a call under way that runs alone returns, in at most seven steps |
| `LlSlist.DisciplineIff` | rt-thread/include/rtatomic.h:243-264 | After any disciplined run and for every step that can be taken: in everything that can follow it the list stays the stack of the effects if and only if the step is not an enqueue of a node that a dequeue in flight has read |
| `LlSlist.ReuseLosesNode` | rt-thread/include/rtatomic.h:253-264 | From every state of such a run, an enqueue against the discipline can be followed by disciplined steps of the callers at hand and a newcomer so that the newcomer's node is lost |
| `LlSlist.ReuseIsPossible` | rt-thread/include/rtatomic.h:253-264 | Such an enqueue can be called: a reachable state where a reader of node 1 is in flight and node 1 is free to be enqueued |
| `RefCount.CountIsHeldIff` | rt-thread/include/rtatomic.h:204-231 | In every run the word equals the references held if and only if there are fewer than 2^32 |
| `RefCount.WordOverflows` | rt-thread/include/rtatomic.h:209-231 | A run with 2^32 references, which the word counts as none |
| `RefCount.OneLastReference` | rt-thread/include/rtatomic.h:204-207 | Exactly one decrement has answered true when none is left, and none before |
| `RefCount.NoneAfterLast` | rt-thread/include/rtatomic.h:209-231 | After the last reference is gone no step of any call under way takes one again |
| `RefCount.IncFailsAfterLast` | rt-thread/include/rtatomic.h:228-231 | An increment called after that point does not succeed |
| `RefCount.FailureMeansNoneLeft` | rt-thread/include/rtatomic.h:209-226 | An increment answers failure only when no reference is left |
| `RefCount.TrueMeansTaken` | rt-thread/include/rtatomic.h:204-231 | In every run the references are one, plus the answers TRUE returned, plus the calls about to return TRUE, less the decrements |
| `RefCount.IncReturnsAlone` | rt-thread/include/rtatomic.h:209-221 | From every state a call under way that runs alone returns, in at most three steps |
| `EmacRing.BufCountIs` | libraries/rt_drivers/drv_emac.c:503-519 | The two-branch buffer count is the least number of buffers that hold the frame |
| `EmacRing.DescribedIsPrefix` | libraries/rt_drivers/drv_emac.c:535-563 | Descriptors with full sizes in front and the rest in the last describe the concatenated bytes of the buffers |
| `EmacTx.HandedOverDescribes` | libraries/rt_drivers/drv_emac.c:520-563 | The descriptors that chain mode hands over describe exactly the bytes of the frame, sizes cut to their field included |
| `EmacTx.HandOne` | libraries/rt_drivers/drv_emac.c:537-563 | Each round of the loop hands over one more descriptor and leaves the others alone |
| `EmacTx.OwnedAhead` | libraries/rt_drivers/drv_emac.c:594-620 | A descriptor found owned during the copy is one of those the frame needs |
| `EmacTx.TxRing.ChainMode` | libraries/rt_drivers/drv_emac.c:492-570 | Fails and changes nothing on an owned descriptor or length 0; else hands over exactly the needed descriptors, FS on the first only, LS on the last only, and moves the ring pointer by their number |
| `EmacTx.TxRing.Transmit` | libraries/rt_drivers/drv_emac.c:581-643 | With the needed descriptors free the pbuf chain lies in the buffers in order and exactly those descriptors are handed over; with one still owned no descriptor and no ring pointer changes; a buffer the DMA owns is never written |
| `EmacRx.RxRing.ChainMode` | libraries/rt_drivers/drv_emac.c:648-686 | One segment is looked at: owned changes nothing; first, middle and last segments set count, first descriptor, length and ring pointer as the code says |
| `EmacRx.RxRing.Receive` | libraries/rt_drivers/drv_emac.c:691-765 | On a descriptor the DMA owns the answer is NULL and nothing changes, and only a last segment is answered with a chain. For a frame of k segments the first k-1 calls return NULL and keep collecting; the k-th gives OWN back on exactly those k, resets the count, stands k further on, and returns a pbuf chain of the allocated shape with the bytes of the frame without its check sequence, if and only if there are any and pbuf_alloc succeeds |
| `EmacRx.RxRing.CopyOut` | libraries/rt_drivers/drv_emac.c:718-745 | However pbuf_alloc splits the length, the pbufs hold the frame in order |
| `EmacRx.RxRing.HandBack` | libraries/rt_drivers/drv_emac.c:747-754 | Exactly the collected segments are owned by the DMA again |
| `EmacRoundTrip.RoundTrip` | libraries/rt_drivers/drv_emac.c:492-765 | For every pbuf chain of 1 to N*MAX bytes that leaves room for the check sequence on the receive side, the received chain has the transmitted bytes, however either side splits them, exactly when pbuf_alloc succeeds |
| `EmacRoundTrip.ReceivableIff` | libraries/rt_drivers/drv_emac.c:691-765 | A payload needs no more than n receive buffers if and only if it and the check sequence fit in n*MAX bytes |
| `I2c.InterruptMode` | libraries/rt_drivers/drv_hard_i2c.c:752-766 | In every run of interrupts, bytes over the wire, ends of chunks and refusals, pbuff is the start plus what is done, the bytes moved are the first ones in order, and psize is the hardware count, one more for a byte that waits to be read and one less for a byte that waits to be sent |
| `I2c.EndsCleanIff` | libraries/rt_drivers/drv_hard_i2c.c:906-978 | A transfer that ended has no error if and only if every byte was moved between buffer and register once in order, and then all of them passed the wire if and only if nothing was refused |
| `I2c.RefusedEnds` | libraries/rt_drivers/drv_hard_i2c.c:906-978 | A refused transfer can end with at most two more interrupts, which move nothing, and then has an error if and only if bytes are left to move |
| `I2c.IntStepKeepsInv` | libraries/rt_drivers/drv_hard_i2c.c:906-978 | Every interrupt, byte over the wire, end of a chunk and refusal keeps driver and hardware counters in agreement |
| `I2c.Finish` | libraries/rt_drivers/drv_hard_i2c.c:906-978 | From every reachable state that is not a receive jammed or bound to jam, some run ends with all bytes moved and no error |
| `I2c.JammedForever` | libraries/rt_drivers/drv_hard_i2c.c:928-946 | With a received byte beside TCRLD, nothing that can happen changes the state |
| `I2c.CanJamIff` | libraries/rt_drivers/drv_hard_i2c.c:906-978 | Some run gets there if and only if more than MAX_TRANSFER_CNT bytes are received |
| `I2c.CanFinishIff` | libraries/rt_drivers/drv_hard_i2c.c:906-978 | An unrefused transfer can end with every byte moved if and only if it is not a receive of more than MAX_TRANSFER_CNT bytes on hardware that raises TCRLD with the last byte of a chunk |
| `I2c.CanHideRefusalIff` | libraries/rt_drivers/drv_hard_i2c.c:908-919 | Some run ends refused and without an error if and only if bytes are sent or there are none |
| `I2c.PlanCovers` | libraries/rt_drivers/drv_hard_i2c.c:768-788 | The chunks from any offset are consecutive, disjoint and cover exactly the rest, none empty or longer than MAX_TRANSFER_CNT, reload on all but the last, for any MAX_TRANSFER_CNT of 8 bits |
| `I2c.DmaMode` | libraries/rt_drivers/drv_hard_i2c.c:980-1039 | In every run of channel moves, bytes over the wire, ends of chunks, completions, events and refusals of a transfer of at least one byte, the channel set-ups and the programmed counts follow one plan of chunks; the length of each set-up is the count programmed for it; an end without error means the whole buffer moved once in order |
| `I2c.DmaPassedIff` | libraries/rt_drivers/drv_hard_i2c.c:1359-1478 | After such an end all bytes passed the wire if and only if nothing was refused |
| `I2c.RefusedEndsDma` | libraries/rt_drivers/drv_hard_i2c.c:980-1039 | A refused DMA transfer can end with at most two more events, which move nothing, and then has an error if bytes were left to move |
| `I2c.DmaStepKeepsInv` | libraries/rt_drivers/drv_hard_i2c.c:1359-1478 | Every channel move, byte over the wire, end of a chunk, completion, event and refusal keeps CPU, DMA and peripheral counters in agreement, at most the byte in the data register apart |
| `I2c.FinishDma` | libraries/rt_drivers/drv_hard_i2c.c:980-1039 | From every reachable state with nothing refused, some run ends with all bytes moved and no error |
| `I2c.CanFinishDmaIff` | libraries/rt_drivers/drv_hard_i2c.c:868-899 | An unrefused transfer can end with every byte moved if and only if it has at least one |
| `I2c.CanHideDmaRefusalIff` | libraries/rt_drivers/drv_hard_i2c.c:980-998 | Some run ends refused and without an error if and only if bytes are sent or there are none |
| `I2c.ModesAgree` | libraries/rt_drivers/drv_hard_i2c.c:752-788 | Both modes move the same bytes in the same order |
| `I2c.Handle.Start` | libraries/rt_drivers/drv_hard_i2c.c:752-766 | i2c_start_transfer in place is the transition that the interrupt-mode runs use |
| `I2c.Handle.StartDma` | libraries/rt_drivers/drv_hard_i2c.c:768-788 | i2c_start_transfer_dma in place is the transition that the DMA-mode runs use |
| `I2c.Handle.MasterInt` | libraries/rt_drivers/drv_hard_i2c.c:790-840 | A call on a free bus starts such a run; a busy bus is an error and starts nothing |
| `I2c.Handle.MasterDma` | libraries/rt_drivers/drv_hard_i2c.c:842-904 | The same for the DMA mode |
| `I2c.Handle.MasterIsrInt` | libraries/rt_drivers/drv_hard_i2c.c:906-978 | The interrupt handler in place is the transition of the interrupt-mode runs |
| `I2c.Handle.MasterIsrDma` | libraries/rt_drivers/drv_hard_i2c.c:980-1039 | The event handler in place is the transition of the DMA-mode runs |
| `I2c.Handle.DmaComplete` | libraries/rt_drivers/drv_hard_i2c.c:1359-1478 | i2c_dma_isr in place is the completion of the DMA-mode runs |
| `CpusLock.MutualExclusion` | rt-thread/src/cpu_mp.c:144-206 | In every run of CPUs with nested, balanced lock calls at most one is between the return of a lock call and the unlock that ends it, and every level passed to rt_exit_critical_safe is the current one |
| `CpusLock.OnlyHolderTouches` | rt-thread/src/cpu_mp.c:161-200 | The saved critical level is stored and fetched only by the CPU that has the lock, and no other step changes it |
| `CpusLock.SavedWhenFree` | rt-thread/src/cpu_mp.c:196-200 | While no CPU has the lock the saved level is 0 |
| `CpusLock.UnlockRestores` | rt-thread/src/cpu_mp.c:180-205 | An unlock restores the interrupt state and critical level its lock call found; the outermost one leaves only the thread's own sections |
| `CpusLock.NestPositive` | rt-thread/src/cpu_mp.c:186-190 | The nest count is positive whenever an unlock counts it down |
| `CpusLock.StepKeepsInv` | rt-thread/src/cpu_mp.c:144-206 | Every access to a shared word keeps lock, nest count, levels and interrupt state in agreement |
| `HookList.ListStable` | rt-thread/include/rtdef.h:445-472 | In every interleaving the counter is the number of calls in progress, and the list changes only when there are none |
| `HookList.EachHookOnce` | rt-thread/include/rtdef.h:486-503 | A call has run, when it leaves, exactly the hooks registered when it was counted, once each and in list order |
| `HookList.WalkOnList` | rt-thread/include/rtdef.h:494-497 | The unlocked walk stays on the list: the handler next to run is the one after those that ran |
| `HookList.EditMeans` | rt-thread/include/rtdef.h:450-472 | What one edit means: sethook adds its node at the end and rmhook takes out exactly its node |
| `HookList.ListIsEdits` | rt-thread/include/rtdef.h:449-471 | In every run a node is on the list if and only if the last edit of it that took effect was its sethook, and the list is in the order of those sethooks |
| `HookList.CallsComplete` | rt-thread/include/rtdef.h:449-503 | In every run each edit takes effect once between its call and its return, and each walk runs the hooks registered when it counted itself in, and nothing else, before it returns; who is back does not hold the lock |
| `HookList.StaysRegistered` | rt-thread/include/rtdef.h:449-471 | The node of a sethook that took effect is on the list until an rmhook of it takes effect |
| `ConsoleLock.OneOwner` | rt-thread/src/kservice.c:239-270 | In every run only the owner has takes outstanding, the nest count is their number, and all checked exits were given the current level |
| `ConsoleLock.ReleaseRestoresLevel` | rt-thread/src/kservice.c:272-293 | A release puts its thread back at the critical level its take was called at |
| `ConsoleLock.LastReleaseCleanIff` | rt-thread/src/kservice.c:272-293 | The swapped levels match at the last release if and only if the owner is at the level the first take left it at |
| `ConsoleLock.ReleaseInsideSection` | rt-thread/src/kservice.c:272-293 | A run whose last release would fail its check, the owner having entered a critical section since its take |
| `ConsoleLock.TakeEffect` | rt-thread/src/kservice.c:239-270 | What one round of the take loop does in each of its three cases |
| `ConsoleLock.ReleaseEffect` | rt-thread/src/kservice.c:272-293 | What a release does, and when its checked exit is right |
| `ConsoleLock.Console.TakeRound` | rt-thread/src/kservice.c:239-270 | One round of the loop in place is that transition |
| `ConsoleLock.Console.Release` | rt-thread/src/kservice.c:272-293 | _console_release in place is that transition |
| `List.Node.constructor` | rt-thread/include/rtservice.h:50-53 | rt_list_init makes a ring of one |
| `List.InsertAfter` | rt-thread/include/rtservice.h:61-68 | Refines sequence insertion behind a node; only the node, its successor's prev and the new node are written |
| `List.InsertBefore` | rt-thread/include/rtservice.h:76-83 | Refines sequence insertion in front of a node; in front of the head is at the end |
| `List.Remove` | rt-thread/include/rtservice.h:89-95 | Refines sequence deletion; the node stands alone afterwards, and one that stood alone is unchanged |
| `List.IsEmpty` | rt-thread/include/rtservice.h:101-104 | True exactly for a head alone |
| `List.Len` | rt-thread/include/rtservice.h:110-121 | Terminates with the number of nodes behind the head |
| `List.ForEachSafe` | rt-thread/include/rtservice.h:146-148 | Visits every node once in order while the body removes any of them; what is left is the list of those not removed, and each removed node stands alone |
| `List.Visit` | rt-thread/include/rtservice.h:146-148 | After a visit, removal or not, the saved successor is the next node to visit |
| `Slist.Append` | rt-thread/include/rtservice.h:197-206 | Refines appending to the sequence |
| `Slist.Insert` | rt-thread/include/rtservice.h:208-212 | Refines insertion behind a node |
| `Slist.Len` | rt-thread/include/rtservice.h:214-225 | Terminates with the number of nodes behind the head |
| `Slist.Pop` | rt-thread/include/rtservice.h:227-240 | Returns and removes the first node, or NULL from an empty list |
| `Slist.Remove` | rt-thread/include/rtservice.h:242-257 | Deletes the node from the sequence; an absent node changes no link |
| `Slist.Tail` | rt-thread/include/rtservice.h:264-269 | The last node, or the head of an empty list |
| `UsartDma.ReportIff` | libraries/rt_drivers/drv_usart_v2.c:441-445 | The reported length is the number of bytes since the last report if and only if that is less than a buffer, or exactly one with the wrap point read first as full and then as 0 |
| `UsartDma.NextReportIff` | libraries/rt_drivers/drv_usart_v2.c:441-451 | The same for the next report of any state a run can be in |
| `UsartDma.SumOfReportsIff` | libraries/rt_drivers/drv_usart_v2.c:426-452 | For a configured size: in every run with less than a buffer of bytes between looks at the counter, and with the wrap point read as 0 or as full, the reports sum up to the bytes stored, if and only if the size is 0 or at least the minimum that opening the device raises it to |
| `UsartDma.RunKeepsAccounted` | libraries/rt_drivers/drv_usart_v2.c:441-451 | For such sizes the place of the last look, the counter and the bytes since agree in every state of a run |
| `UsartDma.RaisedFails` | rt-thread/components/drivers/serial/dev_serial_v2.c:981-983 | For every other size the first report after one byte is 0 or one more than the configured size |
| `UsartDma.RunKeepsInv` | rt-thread/components/drivers/serial/dev_serial_v2.c:1991-2036 | For a configured size that is 0 or not raised, and a multiple of RT_ALIGN_SIZE: in every run, with bytes arriving between the report and the copy, ring, DMA and counter stay in step and what was copied out is what was stored, in order |
| `UsartDma.FaithfulIff` | rt-thread/components/drivers/ipc/ringbuffer.c:37-51 | Every run reports and hands on the bytes as they came if and only if the configured size is 0 or not raised, and a multiple of RT_ALIGN_SIZE |
| `UsartDma.MisalignedFails` | rt-thread/components/drivers/ipc/ringbuffer.c:50 | For every size that is not raised and no such multiple, a run that hands on a wrong byte |
| `UsartDma.Uart.constructor` | libraries/rt_drivers/drv_usart_v2.c:154-158 | A device configured before it is opened counts from the configured size |
| `UsartDma.Uart.Configure` | libraries/rt_drivers/drv_usart_v2.c:154-158 | last_index is set to the configured size unless the device is open |
| `UsartDma.Uart.RxEnable` | rt-thread/components/drivers/serial/dev_serial_v2.c:980-983 | The configured size is raised to the minimum and last_index is left alone |
| `UsartDma.Uart.DmaRxIsr` | libraries/rt_drivers/drv_usart_v2.c:426-452 | dma_rx_isr in place computes the report of the runs and moves last_index only with a report |
| `SerialRing.PeeksCover` | rt-thread/components/drivers/ipc/ringbuffer.c:231-261 | A write index update on an empty ring and two peeks yield exactly the reported elements in order, around the end of the buffer, and leave the ring empty |
| `SerialRing.UpdateKeepsNewest` | rt-thread/components/drivers/serial/dev_serial_v2.c:326-366 | From any contents: the write index moves on by the length, and the ring then lists that many elements more or, when they do not fit, is full and lists the newest ones in front of the write index |
| `SerialRing.PeekTakes` | rt-thread/components/drivers/ipc/ringbuffer.c:231-261 | From any contents: a peek takes the elements from the read index up to the end of the buffer and leaves the others |
| `SerialRing.RingBuffer.UpdateWriteIndex` | rt-thread/components/drivers/serial/dev_serial_v2.c:326-366 | rt_serial_update_write_index in place is the update of the runs, overflow branches included |
| `SerialRing.RingBuffer.PeekPiece` | rt-thread/components/drivers/ipc/ringbuffer.c:231-261 | rt_ringbuffer_peek in place is the peek of the runs |
| `Pwm.Fits` | libraries/rt_drivers/drv_pwm.c:385-406 | For every 32-bit period and pulse and every clock of 1 to 288 MHz nothing is cut off: the prescaler, period and compare values fit 16 bits, the period register is at least 2 and the compare value at most two more than it |
| `Pwm.PrescalerLeast` | libraries/rt_drivers/drv_pwm.c:387 | The prescaler is the least one that brings the period below 65535 ticks |
| `Pwm.PeriodIs` | libraries/rt_drivers/drv_pwm.c:386-396 | The period register holds the whole ticks requested, or three if and only if less than four were |
| `Pwm.PulseIs` | libraries/rt_drivers/drv_pwm.c:400-409 | The compare value is the minimum if and only if less than three ticks were requested, one more than the period if and only if the pulse reaches it, and the whole ticks requested else |
| `Pwm.Timer.Set` | libraries/rt_drivers/drv_pwm.c:350-436 | drv_pwm_set in 32-bit variables and 16-bit registers writes what unbounded arithmetic gives |
| `Pwm.Timer.Get` | libraries/rt_drivers/drv_pwm.c:291-345 | drv_pwm_get reads back the 32-bit product of the registers |
| `Pwm.PeriodReadBackIff` | libraries/rt_drivers/drv_pwm.c:334-393 | The period read back is never longer than requested, and is less than one prescaled tick plus a nanosecond shorter if and only if the 32-bit product does not overflow |
| `Pwm.SetThenGet` | libraries/rt_drivers/drv_pwm.c:291-436 | On one timer: get after set returns at most the requested period, with the same bound under the same condition, and at most the requested pulse when that was not clamped |
| `Pwm.ClampedReadBack` | libraries/rt_drivers/drv_pwm.c:391-394 | A request below three ticks reads back as three ticks, which is no shorter |
| `Pwm.PulseReadBackIff` | libraries/rt_drivers/drv_pwm.c:336-409 | A pulse that was not clamped reads back with the same bounds under the same condition; a pulse of at least the period is on all the time |
| `Pwm.QuotTwice` | libraries/rt_drivers/drv_pwm.c:386-399 | Dividing by 1000 and then by the prescaler, or in the other order, is one division |
| `AlignedHeap.PlaceIff` | rt-thread/src/kservice.c:971-993 | The result is a multiple of the alignment, and header and area lie inside the block, if and only if the sizes do not wrap around |
| `AlignedHeap.AlignmentKeptIff` | rt-thread/src/kservice.c:985-992 | All blocks lead to a multiple of the alignment if and only if it rounds to a power of two |
| `AlignedHeap.LowBits` | rt-thread/src/kservice.c:985-992 | Masking with a power of two less one is the remainder |
| `AlignedHeap.StepKeepsInv` | rt-thread/src/kservice.c:965-1019 | Allocations, frees, stores of users inside their areas and stores of anyone outside all blocks keep every area and its header sound |
| `AlignedHeap.MallocAnswers` | rt-thread/src/kservice.c:976-1001 | The answer is NULL, and nothing changes, if and only if rt_malloc had no memory; else it is a new area in the block rt_malloc returned |
| `AlignedHeap.FreePassesBack` | rt-thread/src/kservice.c:1009-1018 | In every such run a free passes back exactly the pointer rt_malloc returned for the area |
| `AlignedHeap.FreeReturnsBlock` | rt-thread/src/kservice.c:1009-1018 | After a free rt_malloc may hand out the block again, or any part of it, and all other areas stay in use |
| `AlignedHeap.AreasDisjoint` | rt-thread/src/kservice.c:983-996 | Two areas in use, headers included, share no byte |
| `AlignedHeap.Heap.Malloc` | rt-thread/src/kservice.c:965-1001 | rt_malloc_align in place is the allocation of the runs |
| `AlignedHeap.Heap.Free` | rt-thread/src/kservice.c:1009-1018 | rt_free_align in place passes on what the runs say |

## Left out

- Scheduler, timers and IPC beyond the calls cited above; a thread that is resumed is taken to run again at any later time.
- The hooks that memory pools call, object registration, and `rt_mp_delete`; its waiters are woken as in `rt_mp_detach`.
- Threads killed while they wait for a block, and deletion of a pool that is in use.
- Mempool.Pool.Init: it is for areas with room for a block; what rt_mp_init does without is InitStaysInsideIff, and a store in front of the area is not carried out.
- Mempool.Pool.Create: it is for a total size below 2^32; what happens beyond is CreateStaysInsideIff.
- Mempool.Pool.AllocNow: the waiting part of `rt_mp_alloc` is in PoolWaiters.
- LlSlist.Linearizable: it is for runs that keep the reuse discipline; DisciplineIff says what happens otherwise.
- RefCount.OneLastReference: it is for fewer than 2^32 references, as are the results after it; a decrement is called only by the owner of a reference.
- EmacTx.TxRing.ChainMode: for frames longer than the whole ring nothing is promised.
- EmacTx.TxRing.Transmit: for a chain longer than the whole ring only the ownership of buffers is promised.
- EmacRx.RxRing.Receive: only frames whose first segment the driver sees first and whose segments carry the marks and the length as the engine writes them.
- EmacRoundTrip.RoundTrip: payloads that a receive ring of the same size has no room for (ReceivableIff), and frames longer than the 14-bit length field, are not received; the engine, the wire and `pbuf_alloc` are assumptions (the Deliver method and a parameter); receive errors and filtered frames do not occur.
- The DMA underrun flags TBU and RBU and the PHY: no state of the rings depends on them.
- I2C error interrupts, timeouts after the start, the slave and memory functions, and the branch for the older series. An interrupt reads all its flags at one moment.
- I2c.DmaMode: transfers of no bytes, which cannot end (CanFinishDmaIff).
- CpusLock.MutualExclusion: the hardware spin lock is taken to exclude; `rt_spin_lock_irqsave` is not modelled beyond that, and no CPU switches threads inside the lock.
- ConsoleLock.OneOwner: takes before the scheduler starts, when the current thread is NULL, and printf buffers are not modelled; critical debugging is on.
- HookList.EachHookOnce: a handler does not call sethook or rmhook itself, which would wait for itself forever.
- List.ForEachSafe: the body may remove the visited node and no other.
- UsartDma.SumOfReportsIff: one handler call does not interrupt another, although the DMA and the USART interrupt have different priorities.
- UsartDma.FaithfulIff: it is for the default overwrite strategy, and up to the copy out of the DMA buffer; what the reader's ring buffer keeps is not modelled.
- Pwm.Timer.Set: 16-bit timers only; the clock in MHz is a parameter. `drv_pwm_set_pulse` and `drv_pwm_set_period` are not modelled.
- AlignedHeap.FreePassesBack: `rt_malloc` is taken to return word-aligned memory outside all blocks in use and below the end of the address space.
- Register set-up, pin functions, logging, shell commands and the other drivers.
