# Leòman, verified

Leòman is a small i386 microkernel. This project models, in Dafny, the parts of it that carry
state from call to call, and proves what they keep and what they promise each other:

- **Message passing and scheduling** (`Ipc*`, `Scheduler`, `Kernel`, `WaitGraph`). Send, receive
  and reply are steps over a process table of any size, the kernel heap, physical memory and the
  scheduling flag. `Ipc.Step` gives each step as a function with explicit faults (a null pointer,
  an access outside a mapped window, a block header behind the heap pool); class `Kernel.Machine`
  runs the same steps in place, loop by loop, and is proved equal to them. On runs of any kind:
  what each event does to every queue and state (`IpcQueues`) and to the bytes of memory
  (`IpcCopies`), which events fault (`IpcFaults`), one heap block for each queued packet
  (`IpcBlocks`), when replies keep to the order of acceptance (`IpcAccounts`), when processes wait
  in a circle (`IpcWaits`), and bounded waiting for the processor (`IpcFairness`). On runs of
  well-behaved calls: no fault and a one-to-one correspondence of queue nodes, heap blocks and
  blocked processes (`IpcInvariant`, `IpcService`, from boot on in `IpcBoot`), no deadlock
  (`IpcWaits`), service in order of arrival, and replies that reach the requester (`IpcService`).
  The rendezvous does not depend on who arrives first (`IpcRendezvous`, `IpcMeanwhile` with other
  processes at work). `IpcCases` and `IpcStrayReply` have runs from boot in which the calls do what
  their documentation rules out.
- **The kernel heap** (`Heap`): first fit over block headers in a 16 KiB pool, one request size.
- **Physical page frames** (`PageFrames`, `Bits`): the bitmap allocator, with wrapping addresses.
- **Page tables** (`Paging`, `VmSpec`, `VmEntries`, `Vm`): the 32-bit two-level walk of section 4.3 of
  the Intel SDM, Volume 3A, and a kernel that edits its tables through a directory that maps itself, on
  frames from the allocator. Every operation is exact on entries, flags included. The copies of the system calls run here byte by byte, through windows that
  are mapped and unmapped again, and `IpcOnPages` puts them together: on real page tables, each
  system call leaves the memory that its step in `Ipc` says.
- **Several address spaces** (`Isolation`, `IpcAcross`): directories that share the kernel's tables.
  A call in one space leaves every translation and all data of the others alone, new spaces join,
  and a conversation goes on across a context switch.
- **What a copy window shows** (`PhysMem`): the physical bytes behind a buffer, and those behind a
  run of consecutive frames mapped at a fixed address. The message steps copy between lists of
  such bytes, and module `Vm` proves that its windows do exactly these copies.
- **The tail queue** (`Stailq`) behind every message queue, with its pointer to a link.
- **The SAR archive** (`Sar`): writer and readers, back to back, and the archive byte by byte.
- **The text screen** (`Screen`): video memory, colours included, against an unbounded scrollback.
- **Several processors** (`Smp`): stacks handed out by compare-and-exchange, and the print lock,
  under every interleaving.

Numbers of machine words are naturals with their bound in the type, and arithmetic that wraps in
the kernel is written with its modulus. A packet's buffers are addresses; an address space is a
function from pages to frames; the system calls see every buffer they touch as mapped.

## Where the code departs from its documentation

The model follows the code in each case.

- `include/ipc.h:42-47` says that a send blocks the sender. `kernel/syscall.c:105-108` queues the
  message but lets the sender run on when the receiver is itself awaiting a reply or running: the
  sender is blocked if and only if the receiver was ready or waiting for a message
  (`IpcService.SenderBlocksIff`). A run from boot reaches the other case with two sends and a
  tick (`IpcCases.SenderRunsOn`). Runs are called polite when they avoid this branch and buffers that
  leave their windows, and when the idle process makes no call; a process may send to itself and
  to the idle process.
- A sender that runs on may receive before it is answered. The reply to its message then wakes it
  although no message has arrived, and the next reply of its own goes to whatever pid stood in the
  packet it passed to its receive (`IpcStrayReply.ReplyWithoutRequest` is such a run from boot). In
  runs of any kind, what a server has accepted is what it has replied to and what waits in its
  queue, at every point, if and only if no reply wakes a process that waits for a message
  (`IpcAccounts.BooksFromBoot`).
- In all runs, polite or not, processes wait in a circle if and only if a ready process has sent to
  itself (`IpcWaits.NoCircularWait`), which takes two ticks and a send from boot
  (`IpcCases.ProcessWaitsForItself`). Whoever sends to the idle process waits for good
  (`IpcWaits.StuckForGood`), and then there may be nobody else to run (`IpcCases.RequestToIdle`).
  Without either, there is no deadlock (`IpcBoot.NoDeadlockFromBoot`).
- `include/ipc.h:42-44` calls a sender whose message waits send-blocked, and reply-blocked once it
  is received. The code uses the two states the other way round: send-blocked if and only if the
  receiver was waiting (`IpcService.BlockedStateIff`). It never moves a process from one to the other
  (`IpcService.StatesNeverSwap`). The model treats both as awaiting a reply.
- `include/ipc.h:70-74` lets the caller of a reply name the process that is answered.
  `kernel/syscall.c:172-189` never looks at the name and answers the oldest sender: the process
  named becomes ready if and only if it is that one (`IpcService.NamedSenderReadyIff`), which it is
  not in the run of `IpcCases.WrongSenderWakes`.
- A send to a pid that no process has returns with scheduling disabled
  (`kernel/syscall.c:35-38`), and is the only call that does (`IpcFairness.CallEnablesIff`). Until
  the sender's next call, no tick takes the processor from it
  (`IpcFairness.SchedulingStaysOff`, `IpcCases.FirstProcessStarvesAll`).
- A send copies as many bytes as the receiver has room for, whatever length the sender gave
  (`kernel/syscall.c:80-82`), and a receive as many as it asks for (`kernel/syscall.c:148-150`).
  The receiver gets bytes that were never offered if and only if its length is the larger one
  (`IpcRendezvous.OnlyOfferedBytesIff`); `IpcCases.SecondByteNeverOffered` is a run from boot in
  which one process offers a byte and another gets two.
- A window maps consecutive frames, whatever frames follow in the peer's own tables. It shows the
  peer's buffer if and only if the buffer is physically contiguous (`PhysMem.WindowShowsBuffer`,
  with a case in `PhysMem.ScatteredBufferCase`). `map_pages` also ignores the page offset when it
  counts pages (`kernel/vm.c:135`). The copy stays on mapped pages if and only if `WindowCovers`
  holds (`VmSpec.WindowCoversIff`); `VmSpec.StraddlingBufferCase` has two bytes for which it does not.
- `pm_alloc` returns a physical address while `pm_free` subtracts the pool's virtual base
  (`kernel/pm.c:93-94`). The round trip works through `p2v`, and never without it
  (`PageFrames.FreeOfAllocatedMisses`).
- The heap's test for cutting a block off the tail accepts tails that are up to 28 bytes too small:
  12 from `kernel/heap.c:49`, 4 from `kernel/heap.c:121` and the 12 of the new header
  (`HeapSpec.TailTestUnsound` gives the exact condition, `HeapSpec.TailTestUnsoundCase` the first
  40-byte request that is served past the end of the pool: the 315th). Runs of 40-byte requests
  stay inside the pool if and only if at most 314 are ever live (`HeapSpec.MessagesStayInsideIff`).
  The sizes for which no run can leave the pool are those of `HeapSpec.AllRunsStayInsideIff`.
- `map_page` does not check what `pm_alloc` returns (`kernel/vm.c:99-105`). When the pool has no
  frame left for a new page table, the table goes into a frame outside the pool, and into physical
  frame 0 once every bit of the bitmap is set. The page is mapped and the address space unharmed if
  and only if that frame is no table yet and blank, but for the one word that is overwritten
  (`Paging.NewTableIff`, `Vm.AddressSpace.MapPage`); with one stale word in frame 0, another page
  becomes mapped too (`Paging.StaleFrameCase`).

## Assumptions

- Physical pages that the frame allocator has not handed out read as zero, since a new page table
  is not cleared (`kernel/vm.c:101-105`). It is part of `VmSpec.Sound` and kept by every operation.
- The pool's frames lie below physical address 0xffc00000 when a directory is copied, so that a
  frame mapped at its own address stays clear of the self-map.
- Processes are created before the first one runs, as `kernel/kernel.c:226-251` does; the idle
  process makes no system call (`kernel/proc.c:79-86`).
- No large pages: no directory entry has the PS bit. It is part of `Paging.Space` and kept by every
  operation, since callers pass no flags that contain it.

## Model

| member | source | states |
|---|---|---|
| ProcTable.FindByPid | kernel/proc.c:61-68 | the slot found has the pid and is the first that has; none means that no slot has it |
| Scheduler.FindNext | kernel/proc.c:39-59 | the slot found is the eligible one nearest to the cursor in cyclic order, the cursor moves just behind it, and none is found only if none is eligible |
| Scheduler.Search | kernel/proc.c:44-58 | from any point of the loop, given that no eligible slot was passed over so far |
| Scheduler.SearchApproaches | kernel/proc.c:39-59 | a search that passes over a ready process strictly reduces the cursor's cyclic distance to it |
| Scheduler.BoundedWaiting | kernel/proc.c:39-59 | a process that stays ready is found within its distance plus one searches, over tables that may change in between |
| Scheduler.EveryoneGetsATurn | kernel/proc.c:39-59 | hence within as many searches as there are slots |
| IpcFairness.StepSearches | kernel/proc.c:101-141 | an event that reschedules either runs a ready process or brings the cursor closer to it |
| IpcFairness.BoundedWaitingInRuns | kernel/proc.c:101-141 | in every run that does not fault, whatever else happens in it, a process that is ready after each rescheduling runs before there have been as many reschedulings as slots |
| IpcFairness.OtherEventsKeep | kernel/syscall.c:35-38 | events that do not reschedule leave cursor, current process and table alone |
| IpcFairness.CallEnablesIff | kernel/syscall.c:28-196 | a call that does not fault ends with scheduling on if and only if it is not a send to an unknown pid |
| IpcFairness.SchedulingStaysOff | kernel/proc.c:107-109 | with scheduling off, no number of ticks, user steps and failed sends changes the current process or turns scheduling on |
| IpcFairness.FailedSendStarves | kernel/syscall.c:35-38 | after a send to an unknown pid, its sender keeps the processor until it makes another call |
| IpcCases.SenderRunsOn | kernel/syscall.c:105-108 | from boot, with any number of slots and of processes beyond the kernel's own, a send, a tick and a send back reach a state where a sender is ready while its message waits in the queue |
| IpcCases.ProcessWaitsForItself | kernel/syscall.c:60-104 | from boot, two ticks and a send of slot 2 to itself make it wait for itself |
| IpcCases.SecondByteNeverOffered | kernel/syscall.c:148-150 | from boot, a send that offers one byte, a tick and a receive of two deliver the sender's next byte too |
| IpcCases.WrongSenderWakes | kernel/syscall.c:172-189 | from boot, two sends, a receive and a reply that names the second sender wake the first, and the second stays blocked |
| IpcCases.RequestToIdle | kernel/syscall.c:60-109 | from boot, a send to the idle process and a receive leave nobody but the idle process to run, while the sender awaits its reply |
| IpcCases.FirstProcessStarvesAll | kernel/syscall.c:35-38 | from boot, one send to a pid never given out lets the first process keep the processor through any ticks |
| IpcStrayReply.ReplyWithoutRequest | kernel/syscall.c:166-196 | from boot, two sends, a reply, a tick, a receive and two replies: the kernel's process, which has accepted one message, has sent a second reply, to the pid in the packet of its own receive |
| Ipc.StructSizes | include/ipc.h:19-36 | the sizes that the heap and the windows use are those of nine words and of nine words and a link, and the sender is the first word |
| IpcQueues.StepQueues | kernel/syscall.c:28-196 | an event that does not fault, in any state, changes no queue but this: a send adds a node with the sender's pid and buffers at the end of the receiver's queue, or rewrites the first packet of a receiver that waits; a receive that finds nothing leaves its packet; a reply takes the first node away; blocks are taken and freed accordingly |
| IpcQueues.StepMoves | kernel/syscall.c:28-196 | nor any state but this: a receiver that waits wakes up, a sender blocks if the receiver was waiting or ready, a receive that finds nothing waits, the oldest sender wakes up, and a process that is rescheduled unblocked is ready |
| IpcAccounts.StepBooks | kernel/syscall.c:166-196 | an event keeps accepted equal to replied and unanswered, for every process, if and only if it is no reply that wakes a process waiting for a message |
| IpcAccounts.RunBooks | kernel/syscall.c:166-196 | so in runs of any kind: right at every point if and only if no reply of the run does that |
| IpcAccounts.RepliesFollow | kernel/syscall.c:166-196 | then each process has replied to a prefix of those it has accepted |
| IpcAccounts.BooksFromBoot | kernel/syscall.c:28-196 | both from boot on, in every run that does not fault and in which idle makes no call |
| IpcBlocks.StepInBlocks | kernel/syscall.c:45-58 | every event that does not fault keeps queued packets and heap blocks in use one to one |
| IpcBlocks.RunInBlocks | kernel/syscall.c:184-185 | in runs of any kind, no block leaks, is shared or is freed too early |
| IpcBlocks.BlocksFromBoot | kernel/kernel.c:226-251 | so from boot on |
| IpcFaults.AllocateIff | kernel/heap.c:34-69 | a node cannot be had if and only if every block is in use and the pool has no room for one more |
| IpcFaults.FaultsIff | kernel/syscall.c:28-196 | in a sane state, an event faults if and only if it queues a packet when the pool is full, names the pid of the empty slots, or copies more than its window covers |
| IpcFaults.FaultsFromBoot | kernel/syscall.c:28-196 | so from boot on, until a reply wakes a process that waits for a message |
| IpcCopies.SendDelivers | kernel/syscall.c:79-91 | in any state, a send to a process that waits puts the sender's bytes into the buffer and its pid into the packet that the placeholder names, the pid last, and changes no other byte |
| IpcCopies.ReceiveDelivers | kernel/syscall.c:138-156 | in any state, a receive that finds a message gets the bytes of the oldest sender's buffer and its pid, and changes no other byte |
| IpcCopies.ReplyDelivers | kernel/syscall.c:172-182 | in any state, a reply puts its bytes into the oldest sender's buffer, and changes no other byte |
| IpcCopies.OthersLeaveMemory | kernel/syscall.c:28-196 | every other call and every tick leaves memory alone |
| Kernel.Machine.FindProc | kernel/proc.c:61-68 | the loop finds the slot that the specification names |
| Kernel.Machine.FindNextProc | kernel/proc.c:39-59 | the guarded loop with its static cursor finds the nearest eligible slot and leaves the cursor the specification says |
| Kernel.Machine.Reschedule | kernel/proc.c:101-141 | the in-place rescheduling is the step Schedule on the whole state |
| Kernel.Machine.Memcpy | kernel/kernel.c:70-78 | the byte loop is Copy of the two lists of physical bytes |
| Kernel.Machine.NewNode | kernel/syscall.c:45 | kalloc of a node takes the block that Allocate names, inside the pool |
| Kernel.Machine.QueuePacket | kernel/syscall.c:42-58 | queueing in place is the step Enqueue on the whole state |
| Kernel.Machine.FillPlaceholder | kernel/syscall.c:61-99 | filling in place, with the receive buffer fields overwritten midway, is the step Fill on the whole state |
| Kernel.Machine.SendMsg | kernel/syscall.c:28-118 | the call in place is the event Send on the whole state, including the early return that leaves scheduling off |
| Kernel.Machine.RecvMsg | kernel/syscall.c:120-164 | the call in place is the event Recv on the whole state |
| Kernel.Machine.RplyMsg | kernel/syscall.c:166-196 | the call in place is the event Reply on the whole state |
| PhysMem.Plus | kernel/syscall.c:69-70 | the page and the offset of the address i bytes on, around the end of the address space |
| PhysMem.CopyMoves | kernel/kernel.c:70-78 | a copy changes only its destination, and delivers every byte when destination and source do not overlap |
| PhysMem.CopySmears | kernel/kernel.c:70-78 | the copy goes from front to back: where each byte goes to the place the next one comes from, the first ends up in all |
| PhysMem.StoreWrites | kernel/syscall.c:90 | a store changes only its destination and delivers every byte |
| PhysMem.WindowShowsBuffer | kernel/syscall.c:80-82 | the window shows the buffer's own bytes if and only if its pages are physically contiguous |
| PhysMem.OnePageIsContiguous | kernel/syscall.c:80-82 | which every buffer inside one page is |
| PhysMem.ScatteredBufferCase | kernel/syscall.c:80-82 | and a buffer over two unrelated frames is not |
| IpcInvariant.EnqueueTable | kernel/syscall.c:42-58 | such a send keeps slots, queues and requests consistent |
| IpcInvariant.FillTable | kernel/syscall.c:61-99 | so does one that fills a placeholder |
| IpcInvariant.WaitTable | kernel/syscall.c:126-137 | so does a receive that finds no message and leaves a placeholder |
| IpcInvariant.ReplyPossible | kernel/syscall.c:172-182 | under the invariant, the first node's sender exists, awaits this very reply, and its block is live |
| IpcInvariant.ReplyTable | kernel/syscall.c:172-189 | a reply keeps slots, queues and requests consistent |
| IpcInvariant.HeapRoom | kernel/syscall.c:45 | while some process can run, kalloc finds room for one more node inside the pool |
| IpcInvariant.BlocksTaken | kernel/syscall.c:45-57 | a process that blocks with a new block keeps live blocks and blocked processes one to one |
| IpcInvariant.BlocksPassed | kernel/syscall.c:61-99 | so does one that takes over the block of the process it wakes |
| IpcInvariant.BlocksGiven | kernel/syscall.c:184-188 | so does waking a process and freeing its block |
| IpcInvariant.ReplyServed | kernel/syscall.c:172-189 | a reply answers the oldest message that its server has accepted |
| IpcInvariant.StepKeeps | kernel/syscall.c:28-196 | a polite event never faults and keeps the whole invariant |
| IpcInvariant.RunKeeps | kernel/syscall.c:28-196 | so does every polite run |
| IpcBoot.CreatedTable | kernel/proc.c:205-286 | creating k processes fills the first k slots with pids 0 to k-1 and leaves the cursor behind them |
| IpcBoot.BootEstablishes | kernel/proc.c:190-203 | the booted kernel satisfies the invariant, with nobody waiting |
| IpcBoot.FromBoot | kernel/kernel.c:226-251 | from boot, with up to 314 slots (the kernel has 64), every polite run, also with sends to oneself and to the idle process, is free of faults and keeps the invariant; without a ready process's send to itself its requests form no circle |
| IpcBoot.NoDeadlockFromBoot | kernel/proc.c:101-141 | from boot, a polite run in which nobody sends to itself or to the idle process always has a process other than idle to run while anybody awaits a reply |
| IpcService.NodesOneToOne | kernel/syscall.c:42-58 | different queue nodes stand for different blocked processes and live in different heap blocks |
| IpcService.NodeOwned | kernel/syscall.c:42-58 | a placeholder stands for its waiting server, any other node for its blocked sender, which holds its live block |
| IpcService.EveryoneBlockedHasANode | kernel/syscall.c:126-137 | conversely, every blocked process has its node |
| IpcService.SenderBlocksIff | kernel/syscall.c:28-118 | once a send is over, its sender is blocked if and only if the receiver was ready or waiting for a message, self-sends included |
| IpcService.BlockedStateIff | kernel/syscall.c:60-104 | a send leaves its sender send-blocked if and only if the receiver was waiting for a message, and reply-blocked if and only if it was ready |
| IpcService.StatesNeverSwap | kernel/syscall.c:28-196 | no event of another process moves a process from one of the two states to the other |
| IpcService.ServedInOrder | kernel/syscall.c:138-189 | with servers that alternate receive and reply, the senders replied to are a prefix of those returned by receive, which are a prefix of those accepted, at most one reply behind |
| IpcService.RepliesInOrder | kernel/syscall.c:166-196 | without that discipline, replies still go out in the order of arrival |
| IpcService.ReceiveNamesPending | kernel/syscall.c:138-156 | a receive that finds a message writes the pid of the process whose answer is due into the server's packet |
| IpcService.ReceiveCopies | kernel/syscall.c:138-156 | the message copied is that of the process whose answer is due from then on, from the buffer its own request names |
| IpcService.ReceiveBytes | kernel/syscall.c:138-156 | if that buffer is contiguous and all buffers are apart, the server's buffer holds its bytes and the packet its pid, and no other byte changes |
| IpcService.SendNamesPending | kernel/syscall.c:84-91 | a send that finds the server waiting writes the sender's pid into the packet the server left |
| IpcService.ReplyReachesRequester | kernel/syscall.c:166-196 | a reply copies to the buffer that the process returned by the last receive asked for, makes that process ready and changes no other state |
| IpcService.NamedSenderReadyIff | kernel/syscall.c:172-189 | of the processes that await a reply, the one that a reply names becomes ready if and only if it is the oldest sender |
| IpcService.ReplyBytes | kernel/syscall.c:177-182 | if that buffer is contiguous and apart from the server's, it holds the server's bytes afterwards, and no other byte changes |
| IpcRendezvous.OrderIndependent | kernel/syscall.c:61-99 | the bodies of send then receive and of receive then send leave the same memory and heap, a ready receiver, a blocked sender, and queue heads that agree on the sender, its block and both of its buffers, which are those it passed |
| IpcRendezvous.NextReceiveAlike | kernel/syscall.c:138-156 | so one more receive has the same outcome after either order |
| IpcRendezvous.OrderIndependentInSteps | kernel/syscall.c:28-164 | so do the whole calls with their reschedulings, with any number of timer ticks between them |
| IpcMeanwhile.OthersAlike | kernel/syscall.c:28-196 | whatever third processes do to one another comes out the same on two machines that differ in the two that meet, and leaves those two alone |
| IpcMeanwhile.OrderIndependentAmongOthers | kernel/syscall.c:28-196 | with any calls, stores and ticks of third processes between them that are no business with the two, send and receive in either order meet: same memory, heap and third processes, a ready receiver, a sender that awaits the reply, and a head with the sender, its block and both of its buffers |
| IpcRendezvous.MessageDelivered | kernel/syscall.c:80-99 | in both orders the receiver's buffer holds the sender's bytes, its packet names the sender, and no other byte changes |
| IpcRendezvous.OnlyOfferedBytesIff | kernel/syscall.c:80-82 | the receiver gets only bytes that were offered if and only if it asks for no more than the sender's length, and otherwise the sender's next byte too |
| IpcRendezvous.ConversationRestores | kernel/syscall.c:28-196 | send, receive and reply, in either order, restore every process, give the block back and deliver the reply to the sender's buffer |
| WaitGraph.AddEdge | kernel/syscall.c:60-104 | an edge to a process that waits for nobody keeps a wait-for graph acyclic |
| WaitGraph.ChainEnds | kernel/syscall.c:60-104 | in an acyclic graph over n processes each chain ends within n steps at a process that waits for nobody |
| IpcWaits.StepCovers | kernel/syscall.c:28-196 | every event keeps the wait-for graph exact: the processes that await a reply, each with its receiver |
| IpcWaits.StepAcyclic | kernel/syscall.c:28-196 | an event keeps an acyclic graph acyclic if and only if it is no send of a ready process to itself |
| IpcWaits.NoCircularWait | kernel/syscall.c:28-196 | in a run without faults, no processes ever wait in a circle if and only if no ready process sends to itself |
| IpcWaits.SelfSendCircles | kernel/syscall.c:60-104 | a self-send closes a circle if and only if the process is ready; the first process to run is not |
| IpcWaits.PoliteRunAcyclic | kernel/syscall.c:28-196 | in polite runs without a ready process's send to itself the recorded requests form an acyclic graph |
| IpcWaits.ChainEndsRunnable | kernel/syscall.c:60-109 | each chain of waiting processes ends at a process that can run, which is the idle one only if somebody has sent to that |
| IpcWaits.NeverDeadlocked | kernel/proc.c:101-141 | while anybody awaits a reply and nobody that of the idle process, the scheduler finds a ready process other than idle |
| IpcWaits.NobodyAwaitsIdle | kernel/syscall.c:60-109 | in polite runs without a send to the idle process nobody comes to wait for it |
| IpcWaits.StuckForGood | kernel/proc.c:79-86 | in every polite run, a process that awaits the idle process's reply keeps waiting |
| HeapSpec.Take | kernel/heap.c:48-65 | the block taken is the first free one, every other block keeps its use |
| HeapSpec.TakeCounts | kernel/heap.c:48-65 | one more block is live, and the pool is cut further only if all blocks were |
| HeapSpec.BlocksArePeak | kernel/heap.c:34-84 | after any run of requests and legal frees, there are as many blocks as were ever live together |
| HeapSpec.StaysInsideIff | kernel/heap.c:34-84 | a run, refused requests included, stays inside the pool at every point if and only if as many blocks fit as were ever live together |
| HeapSpec.MessagesStayInsideIff | kernel/heap.c:34-84 | for 40-byte requests, if and only if at most 314 were |
| HeapSpec.AllRunsStayInsideIff | kernel/heap.c:34-84 | for a request size, every run of requests and legal frees stays inside the pool if and only if more than 28 bytes are missing for one block more than fits |
| HeapSpec.BlocksTile | kernel/heap.c:51-58 | each block ends where the next begins |
| HeapSpec.PayloadsDisjoint | kernel/heap.c:51-64 | payloads lie in the pool, before the last header, and apart from every other payload and header |
| HeapSpec.TailTestUnsound | kernel/heap.c:49 | the test for cutting the tail refuses nothing that fits, and is safe if and only if the new header would not end 1 to 28 bytes behind the pool |
| HeapSpec.TailTestUnsoundCase | kernel/heap.c:121 | the 315th request of 40 bytes writes a header 8 bytes past the pool |
| KernelHeap.LaidCut | kernel/heap.c:51-62 | copying the tail's header forward and shrinking it lays out one more block |
| KernelHeap.Heap.Init | kernel/heap.c:114-124 | in the mapped pool, one unused block with the size that heap_init records |
| KernelHeap.OccupyLays | kernel/heap.c:50-62 | unless it overruns the pool, taking a block lays out the pool with that block in use |
| KernelHeap.Heap.Occupy | kernel/heap.c:50-62 | exactly the header of the chosen block changes, or that of the old tail and the one cut off behind it, wherever that ends |
| KernelHeap.Heap.Kalloc | kernel/heap.c:34-69 | the first free block is taken, or one cut off the tail, or null is returned and nothing changed, exactly as the tail test says; where the test is unsound, the new header past the pool's end and a payload that does not fit |
| KernelHeap.Heap.Kfree | kernel/heap.c:71-84 | exactly the block of the address is free again, and no other header changes; null and an uninitialised heap change nothing |
| PageFrames.AddressesDistinct | kernel/pm.c:35 | page numbers and physical addresses correspond one to one, though the sum wraps |
| PageFrames.FreeFindsPage | kernel/pm.c:91-94 | pm_free finds the page from any virtual address inside it |
| PageFrames.FreeOfAllocatedMisses | kernel/pm.c:93-94 | pm_free of the physical address that pm_alloc returned clears another page's bit, for every page |
| PageFrames.AllocFreeRoundTrip | kernel/pm.c:24-98 | allocating and then freeing through p2v restores the bitmap |
| PageFrames.FrameAllocator.Alloc | kernel/pm.c:24-47 | exactly the lowest free page is added and its address returned, or null is if all are used; the unguarded bit loop ends |
| PageFrames.FrameAllocator.AllocCont | kernel/pm.c:49-87 | if any word has that many consecutive free pages, exactly the first such window is added and its address returned; if none has, null is and nothing changes |
| PageFrames.FrameAllocator.Free | kernel/pm.c:89-98 | exactly the page of the address is removed |
| Paging.WalkIsLookup | include/kernel/vm.h:73-74 | the walk of an address is the frame of its page and its offset |
| Paging.SelfMapReaches | kernel/vm.c:70-71 | when slot 1023 points at the directory, the computed entry addresses walk to exactly those entries |
| Paging.SelfMapReachesPte | kernel/vm.c:70-77 | so the computed address reaches the very entry that translates a virtual address |
| Paging.WritePte | kernel/vm.c:94 | changing one table entry changes the translation of its page alone |
| Paging.WriteNewTable | kernel/vm.c:99-103 | plugging in a zeroed frame that is no table changes no translation and keeps tables distinct |
| Paging.NewTableIff | kernel/vm.c:99-105 | whatever frame becomes the new table, after both stores the page is mapped as asked, the address space in order and no other translation changed if and only if that frame is no table and blank but for the word overwritten (with the one exception where it is the directory itself) |
| Paging.StaleFrameCase | kernel/vm.c:99-105 | with one stale word in frame 0, mapping page 0 through a table there maps page 1 as well |
| Paging.ByteStored | kernel/kernel.c:70-78 | storing a byte changes that byte of physical memory and no other |
| Vm.AddressSpace.AllocFrame | kernel/pm.c:24-47 | while the pool has a free frame, a zeroed one that is no table and belonged to nobody; after that, null or a frame outside the pool |
| Vm.AddressSpace.StorePte | kernel/vm.c:94 | a store through the self-map changes exactly one page's entry and translation |
| VmEntries.InstalledEnters | kernel/vm.c:93-105 | the two stores of map_page put the entry into the page's place and all flags asked for into the directory entry, and keep every other entry, flags included |
| VmEntries.UserReachesIff | kernel/vm.c:76 | user code gets through to a page that map_page has mapped if and only if the flags asked for say so |
| VmEntries.ReachedElsewhere | kernel/vm.c:93 | no other page becomes one that user code reaches unless its own entry said so before |
| VmEntries.ObjectsIff | kernel/vm.c:79-91 | asked again for a page it has mapped, map_page objects if and only if the frame or the user, write-through or cache-disable flag is another |
| VmEntries.ChangedObjectsIff | kernel/vm.c:79-91 | asked for a page as vm_change_page_attrs left it, map_page objects if and only if the page is read-only |
| Vm.AddressSpace.AddPdeFlags | kernel/vm.c:93 | exactly the directory entry changes, by the flags it gains; no translation does |
| Vm.AddressSpace.EnterPage | kernel/vm.c:92-106 | exactly two words change, for a table that existed as for a new one |
| Vm.AddressSpace.MapPage | kernel/vm.c:68-107 | a page that was free gets an entry with the frame asked for and exactly the flags asked for, present and writable, its directory entry keeps its flags and gains these, and user code reaches the page if and only if they say so; a page that was mapped stays, and the kernel halts if and only if the mappings conflict, which they do not if the same is asked again; no other entry and no other translation changes and new tables come from free frames only; without a free frame for the table, exactly two words change, and the outcome is right if and only if the frame they went to will do |
| Vm.AddressSpace.UnmapPage | kernel/vm.c:112-119 | exactly that page's entry becomes zero |
| Vm.AddressSpace.GetPhysMapping | kernel/vm.c:169-184 | the frame in the page's entry and the offset, since bits 10 and 11 stay clear; for every mapped address of the 4 GiB, the address that the hardware translates to |
| Vm.AddressSpace.ChangePageAttrs | kernel/vm.c:211-219 | the page's entry keeps its frame and has exactly the flags asked for, no other entry and no other translation changes, and map_page then objects to the page as it is if and only if it is read-only |
| Vm.AddressSpace.ChangePagesAttrs | kernel/vm.c:221-233 | so for every page of a range, and no entry outside it changes |
| Vm.AddressSpace.MapPages | kernel/vm.c:124-143 | a range that was unmapped is mapped to consecutive frames, each page with the flags asked for; no entry outside it changes; exactly as many frames are taken as tables were missing |
| Vm.AddressSpace.UnmapPages | kernel/vm.c:148-163 | the entries of the range are zero and no entry outside it changes |
| Vm.AddressSpace.Memcpy | kernel/kernel.c:70-78 | between two mapped buffers, data changes as PhysMem.Copy says of the bytes behind them, and no translation changes |
| Vm.AddressSpace.OpenWindow | kernel/syscall.c:69-80 | the bytes of the window are those of PhysMem.WindowBytes, its pages are present, writable and for the kernel only, mapping it changes no data, nothing outside it is mapped differently, and exactly the missing tables are taken from the pool |
| Vm.AddressSpace.CloseWindow | kernel/syscall.c:82 | closing it changes no data and restores every translation outside the self-map, and those inside it if and only if no table was missing |
| VmSpec.SelfMapSameIff | kernel/syscall.c:80-82 | the pages of the self-map translate as before a range got its tables if and only if it lacked none |
| Vm.AddressSpace.StoreThroughWindow | kernel/syscall.c:86-91 | a sequence of bytes stored through a window lands at the physical bytes meant, as PhysMem.Store says, no other data changes and every translation is restored; the tables that were missing are what it costs |
| Vm.AddressSpace.CopyToPeer | kernel/syscall.c:177-182 | a whole buffer copied through a window into the peer's: data changes as PhysMem.Copy says, every translation is restored, and the missing tables are what it costs |
| Vm.AddressSpace.CopyFromPeer | kernel/syscall.c:141-153 | a whole buffer copied out of the peer's through a window: the same |
| VmSpec.BehindIsBuffer | kernel/syscall.c:81 | the bytes behind a mapped buffer are those that the system calls' steps copy |
| VmSpec.WindowShowsFrames | kernel/syscall.c:144-150 | the bytes of an open window are those that PhysMem.WindowBytes names |
| VmSpec.WindowCoversIff | kernel/vm.c:135 | n bytes from an offset into a window lie on mapped pages if and only if they fit in the whole pages of its size |
| VmSpec.StraddlingBufferCase | kernel/vm.c:135 | of two bytes at page offset 4095, a window of size 2 shows only the first |
| VmSpec.WindowClosed | kernel/syscall.c:141-153 | opening a window, changing any data and closing it leaves every translation as it was |
| VmSpec.KernelCopy | kernel/vm.c:46-60 | a directory with the kernel's entries and its own self-map is an address space that agrees with the kernel's tables and maps nothing else |
| Vm.AddressSpace.CopyKernelPdir | kernel/vm.c:37-63 | null if pm_alloc returns it; otherwise the new directory maps itself, is entry by entry the kernel's entries and no others, so it keeps every kernel translation outside slot 1023 and has no user entry, and is in order, so it can be switched to; the current space gains one page at most, for the kernel only |
| IpcOnPages.PhysMapping | kernel/vm.c:169-184 | on the process's own page tables, the physical address that the step records |
| IpcOnPages.FillPlaceholder | kernel/syscall.c:61-99 | both windows of a send to a waiting receiver, one after the other: memory and the node are those of the step Fill, every translation is restored, and no more tables are taken than were missing |
| IpcOnPages.ReceiveFirst | kernel/syscall.c:138-156 | the copy of a receive and the sender's pid in its packet: memory is that of the step Recv, every translation is restored |
| IpcOnPages.ReplyToFirst | kernel/syscall.c:172-182 | the copy of a reply: memory is that of the step Reply, every translation is restored |
| Isolation.OthersKept | kernel/vm.c:46-53 | whatever happens to one space's tables, another space stays well-formed; where the two share a table it translates as the first now does, and elsewhere as before |
| Isolation.MapPageElsewhere | kernel/vm.c:68-107 | a page mapped in one space is mapped in another if the two share its table, and otherwise not, also when the table is new; no other page of any space changes |
| Isolation.SpacesKept | kernel/vm.c:46-53 | then all spaces are well-formed again and share tables slot by slot only |
| Isolation.NewSpaceJoins | kernel/vm.c:37-63 | so they are with the new directory among them |
| IpcAcross.CallIsolated | kernel/syscall.c:28-196 | a call that changes data alone leaves every translation of every space as it was |
| IpcAcross.CreateSpace | kernel/vm.c:37-63 | unless it fails, one more space, all of them in order, no data changed, and the kernel's translations in the new one |
| IpcAcross.SwitchTo | kernel/proc.c:138 | after the switch, another space translates, and all are in order with the same data |
| IpcAcross.Fill | kernel/syscall.c:61-99 | a send to a waiting receiver: the data of all spaces is that of the step Fill, every translation of every space is as before |
| IpcAcross.Receive | kernel/syscall.c:138-156 | the same for a receive |
| IpcAcross.Reply | kernel/syscall.c:172-182 | the same for a reply |
| IpcAcross.Conversation | kernel/syscall.c:61-189 | a send to a waiting receiver in the sender's space, a context switch and the reply in the receiver's: memory is what the two steps make of it, every translation of every space is as before |
| Stailq.ChainIsUnique | include/queue.h:340-439 | the pointers of a list determine its elements and their order |
| Stailq.ChainIsAcyclic | include/queue.h:340-439 | a list that ends visits no node twice |
| Stailq.Queue.constructor | include/queue.h:372-375 | an empty queue whose tail link is its own first link |
| Stailq.Queue.InsertTail | include/queue.h:389-393 | appends |
| Stailq.Queue.InsertHead | include/queue.h:383-387 | prepends, with the tail link right when the queue was empty |
| Stailq.Queue.InsertAfter | include/queue.h:377-381 | inserts behind an element, with the tail link right when that was the last |
| Stailq.Queue.RemoveHead | include/queue.h:422-426 | drops the first, with the tail link right when the queue becomes empty |
| Stailq.Queue.RemoveAfter | include/queue.h:416-420 | drops the successor, with the tail link right when that was the last |
| Stailq.Queue.Remove | include/queue.h:402-414 | drops exactly the element given, wherever it is |
| Stailq.Queue.Concat | include/queue.h:340-346 | appends the other queue and empties it |
| Stailq.Queue.Swap | include/queue.h:428-439 | exchanges the contents, also of an empty queue, also with itself |
| Stailq.Queue.ForEach | include/queue.h:352-355 | visits the elements in order |
| Sar.PAlignFits | tools/sar.c:25 | 32-bit PALIGN rounds up if and only if the result fits in 32 bits |
| Sar.CountHeaders | tools/sar.c:85-96 | the header size, counted over all inputs and aligned |
| Sar.WriteFile | tools/sar.c:120-150 | the three writes add one file behind those already stored and move both running offsets |
| Sar.Create | tools/sar.c:55-161 | an archive of exactly the inputs that open, in order, ended by the zero header; to the byte it is the magic number, the headers, the zero header, zeros up to the first page for contents, and the padded contents |
| Sar.TerminatesIff | tools/sar.c:198-203 | the walk ends at a header of zeros and nowhere else |
| Sar.HeaderReads | tools/sar.c:198-203 | a written header reads back as its file and never looks like the terminator |
| Sar.WalkReadsBack | tools/sar.c:198-203 | the header walk over an archive ends at its terminator and yields exactly the files in order |
| Sar.LayoutIsSafe | tools/sar.c:91-98 | contents start on 4 KiB boundaries behind all headers and do not overlap |
| Sar.Extract | tools/sar.c:245-261 | one file per entry of the walk, with its name and bytes |
| Sar.SeekFinds | kernel/sar.c:19-32 | in an archive that can be walked to its end, the search ends at the header of the first entry with the name, or at the terminator if none has it |
| Sar.Lookup | kernel/sar.c:19-32 | the header at which the search ends, or null at the terminator, also in an archive that is damaged behind that header |
| Sar.GetContents | kernel/sar.c:34-42 | the offset in that header, or null |
| Sar.CreateThenExtract | tools/sar.c:55-268 | extracting a new archive yields the files that went in |
| Sar.CreateThenLookup | kernel/sar.c:34-42 | a name looked up in a new archive leads to the bytes of the first file that has it |
| Scrollback.WrapAppend | kernel/vga.c:61-78 | one more character extends the wrapped output by at most a line; a newline after a full line adds no blank one |
| Scrollback.WrapKeepsText | kernel/vga.c:61-78 | wrapping at 80 columns loses, adds and reorders no character |
| Screen.LineScrolled | kernel/vga.c:28-39 | moving every row up shows the output, cell for cell, with a line begun at the bottom |
| Screen.CharDrawn | kernel/vga.c:76-77 | drawing at the cursor, in colour, shows the output with the last line one longer |
| Screen.TextScreen.Vga | kernel/vga.c:80-92 | a screen of white-on-black spaces that shows the empty text |
| Screen.TextScreen.Driver | drivers/screen.c:68-100 | a screen of light-cyan-on-black NULs that shows the empty text |
| Screen.TextScreen.PutCharAt | kernel/vga.c:46-59 | one cell gets the character in the current colour, up to the driver's sign extension; no other cell changes |
| Screen.TextScreen.ScrollUp | kernel/vga.c:28-39 | every row moves up by one and the last is blank |
| Screen.TextScreen.BreakLine | kernel/vga.c:63-71 | the cursor goes to a line with room, scrolling if need be |
| Screen.TextScreen.PutChar | drivers/screen.c:49-66 | whatever came before, the screen shows the last 25 lines of the whole output wrapped at 80 columns, each character in the colour that was current when it was printed, and every other cell is determined too |
| Screen.TextScreen.Puts | kernel/vga.c:94-98 | the same for a string up to its NUL, in one colour |
| StackAssignment.StackPointerIsTop | kernel/trampoline_bin.asm:52-56 | the register arithmetic gives the top of the core's 256-byte stack |
| StackAssignment.OrderInRuns | kernel/trampoline_bin.asm:45-50 | under every interleaving, the k-th successful core has the k-th stack and the counter counts them |
| StackAssignment.StackTops | include/kernel/smp.h:18-23 | the k-th core past the loop has its stack pointer at 0x9100 + 256 k |
| StackAssignment.StacksDisjoint | kernel/trampoline_bin.asm:45-56 | cores past the loop have disjoint stacks, none of which meets the page that holds the code and the shared counter |
| StackAssignment.LoadsAndExchanges | kernel/trampoline_bin.asm:45-50 | a core that has no stack yet loads and exchanges in turn |
| StackAssignment.FailureMeansProgress | kernel/trampoline_bin.asm:46-50 | an exchange fails only if another core's succeeded since the load |
| StackAssignment.EveryCoreGetsAStack | kernel/trampoline_bin.asm:45-50 | each of n cores is past the loop after at most 2n steps of its own, however the others interleave |
| PrintLock.PrintsAreAtomic | kernel/print.c:152-170 | under every interleaving at most one CPU holds the lock, both outputs are whole messages and a prefix of the holder's, and each CPU's messages keep their order |
| PrintLock.SomeoneMoves | include/kernel/smp.h:127-133 | while anything is left to print, some CPU's next step has an effect, and then one step less is to come |
| PrintLock.StepsAddUp | kernel/print.c:152-170 | under every interleaving, the steps that had an effect and those still to come add up to the same |
| PrintLock.AllPrintedIff | kernel/print.c:152-170 | everything has been printed if and only if as many steps have had an effect as the messages take together, and never more have |

## Left out

- Kernel.Machine.SendMsg: says nothing where Ipc.Step faults, because the kernel then dereferences a null pointer, faults on an unmapped window or writes behind the heap; likewise RecvMsg and RplyMsg.
- IpcAccounts.RunBooks: runs in which the idle process makes a call, which its code never does.
- IpcMeanwhile.OrderIndependentAmongOthers: third processes that send to one of the two in between, who may be served first and so change whom it meets. IpcRendezvous.OrderIndependentInSteps has ticks only, any number of them in either order.
- KernelHeap.Heap.Kalloc: covers one request size; with mixed sizes the guard supports no safety property.
- KernelHeap.Heap.Init: obtaining and mapping the pool's pages, and halting without them.
- KernelHeap.Heap.Kfree: only addresses that kalloc returned, as the kernel calls it.
- PageFrames.FrameAllocator.AllocCont: requires at least one page, since C leaves a shift by 32 undefined.
- Vm.AddressSpace.MapPages: requires as many free frames as tables are missing; what one page too many does is in MapPage.
- IpcOnPages.FillPlaceholder: requires frames for the tables of both windows, and that the receiver's buffer lies in frames that are in use and no tables; likewise the other two copies.
- Vm.AddressSpace.CopyKernelPdir: with one free frame, requires that the table for its own page exists; with none but a bitmap that is not full, pm_alloc hands out frames outside the pool, which is left out; so are frames whose own addresses lie in the self-map.
- Vm.AddressSpace.CopyToPeer: the buffers lie in frames that are in use and are no tables, so a process cannot send a page table; likewise CopyFromPeer, StoreThroughWindow, Memcpy and the calls of IpcAcross.
- IpcAcross.Conversation: user code that runs between the two calls; it is a change of data in the space that runs.
- Vm.AddressSpace.MapPage: not for pages of the self-map itself, where a new table would be the directory, nor for flags with bit 7, 10 or 11, which no caller passes; "no other translation changes" leaves out the self-map's own pages, through which every table is visible.
- Vm.AddressSpace.UnmapPage: requires that the page's table exists; otherwise the store faults. Likewise GetPhysMapping, ChangePageAttrs and the loops over ranges.
- Stailq.Queue.Remove: requires that the element is in the queue; the macro otherwise runs off its end.
- Sar.Create: archives of 4 GiB and more, where the 32-bit offsets wrap; out of memory and read errors, after which the tool gives up.
- Sar.Extract: archives whose headers, names or contents leave the file, where the tool reads past its buffer; Lookup and GetContents only where the search itself does.
- StackAssignment.StacksDisjoint: more cores than fit below 4 GiB at 256 bytes each.
- Which message queue is behind which process: the process table holds queues as sequences, and module Stailq shows that the linked queues are such sequences.
- Copies go byte by byte through physical memory; caches, the TLB and the flushes that go with it are not modelled.
- Access rights: the flags of every entry are exact, but no access is refused because of them.
- Context switches but for the change of directory, trap frames and the interrupt paths into the system calls: a call is one step followed by rescheduling.
- Process creation once processes run, loading of executables (kernel/elf.c) and vm_alloc_pages_at, which loops over pm_alloc and map_page.
- pm_init's choice of the largest memory area and kernel/kernel.c's adjust_the_memory_map.
- kvformat and the digit printing of kernel/print.c, which do not check their buffer; messages are taken as formatted.
- The screen driver's message loop, where a string message falls through to printing one more character (drivers/screen.c:106-119).
- Listing an archive, which is the walk without the contents.
- The other list macros of include/queue.h, which the kernel does not use.
