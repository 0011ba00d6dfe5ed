# bros kernel core in Dafny

This project models the core of the bros system: the exec kernel (the intrusive
node lists, the K&R storage allocator with its memory-header list, and the
kernel services built on them), its formatted output (`rawdofmt`), the
expansion library's device tree, the AMBA plug&play scan of the GRLIB root
driver, and the four serial device drivers (APBUART, NS16550, PL011 and the
nRF UART). Each section of the kernel that runs under a lock
(`IntLock`/`Mutex`) is modelled as one atomic step.

* `lists.dfy` (module `Lists`): `List` is a class whose field `nodes: seq<Node>`
  is the list from head to tail. Its methods are the list primitives of
  `mod/exec/lists.c`. The sentinel links are not modelled: a sequence has no
  `succ`/`pred` pointers to corrupt. The sequence-level functions `InsertAt`,
  `RemoveAt` and `EnqueuePos` specify the methods and are reused by the other
  kernel lists.
* `mem.dfy` (module `Mem`): one memory header (`MemHeader`). Its free list is a
  sequence of runs `Run(addr, units)` in ascending address order. Run 0 is the
  zero-unit sentinel that is never merged, and `first` is the roving pointer of
  the next-fit search. The circular walk of `iAllocate` is `Fit`. The walk and
  the merges of `iDeallocate` are `PredIndex` and `Freed`.
* `memlist.dfy` (module `Memory`): the list of memory headers (`MemoryList`),
  with a value `Region` for each header. On top of it sit `iAllocMem`,
  `iFreeMem`, `iAvailMem`, `iAllocVec`/`iFreeVec` and the all-or-nothing
  `iAllocEntry`/`iFreeEntry`. `Owed` counts the units a region handed out for
  a MemList's entries, so "all or nothing" is stated as free counts coming
  back exactly.
* `bytes.dfy` (module `Bytes`): `iMemMove`, `iMemSet` and the `memcpy` and
  `memset` of libmiss, on a byte array that stands for memory; a pointer is an
  index into it. `Moved` and `Filled` are the specifications: memmove behaves as
  if the bytes went through a temporary (section 7.24.2.2 of ISO C11).
* `tasks.dfy` (module `Tasks`): `Task` is a class with the fields `task.c`
  updates. `Kernel` holds `taskready`, `taskwait` and `taskremoved` as
  sequences of tasks. Its invariant `Valid` says each list is distinct and
  holds tasks in its own state, and that `taskready` is in priority order.
  Signal masks are `bv32`. The cleanup task's loop body is `Kernel.Sweep` (the
  partition under the task lock) followed by `Dispose`.
* `mutex.dfy` (module `Mutexes`): the kernel mutex. `MutexState` is the mutex
  as a value (owner, nest, waiting tasks). `Obtain` and `Release` say what one
  call does to it. The class `Mutex` runs the C code's steps against a `Kernel`,
  calling `Signal` and one pass of the wait loop.
* `ports.dfy` (module `Ports`): message ports. `Message` and `MsgPort` are
  classes; a port's `msglist` is a sequence of messages. A message's node type
  records where it is in an exchange, and the port invariant `PortOk` says a
  queued message is a sent one or a reply to that port. The wait loops are one
  pass each.
* `libs.dfy` (module `Libraries`): libraries. `Library` is a class with the
  fields of `struct Library`; its function table, which lies below the base in
  memory, is the sequence `ops`. `LibList` is liblist or devlist. The entries a
  library supplies (Open, Close, Expunge, the init function) are parameters:
  `openok` is whether Open succeeded, `seg` whether Expunge returned a segment,
  `initok` whether init accepted the library. `Expunged` is the memory after
  expungelib, and `Memory.Returned` states that freeing gives back exactly
  what was allocated.
* `devs.dfy` (module `Devices`): devices and I/O requests. A device is a
  `Library` on devlist. `IORequest` is a class around its `Message`. What a
  device's BeginIO does is described by the value `Begun`: the request is
  completed at once with an error code, or it is queued. The IOF_QUICK
  protocol of DoIO, SendIO, CheckIO and WaitIO is stated over that value.
* `create.dfy` (module `Creation`): the constructors and destructors of
  `mod/exec/createtask.c`. Each object is a class instance; the block it is
  laid out in is the address returned next to it. The sizes of the structures
  (`sizeof`) and `lib->minstack` are parameters. A constructor whose
  allocation succeeds states `Memory.Lent` (or, for a task, `Owns`): freeing
  what it allocated gives back every free count. The destructors state the
  matching `Released` regions.

* `sched.dfy` (module `Scheduling`): the SMP scheduler of `mod/exec/mp.c`.
  `CPU` is a class with the fields of an ExecCPU that `schedule` and
  `switch_tasks` use; `cpus` is cpuonline in list order. `schedule` is split
  along its four loops (`Gather`, `Keep`, `Pick` with `Apply`, `Idle`). The
  function `Plan` states, from the design comment above `isinlist`, which heir
  each CPU ends with, and `Schedule` is proved to give exactly that plan.
  Masks of CPU numbers are sets of numbers; an IPI is the CPU number recorded
  in the sequence `ipis`; the CPU running `schedule` (`port_get_cpu`) is the
  parameter `local`.
* `resident.dfy` (module `Residents`): ROM residents and reslist. The ROM is a
  map from addresses to `Resident` records. `Scanned` is the list of
  records collectres accepts, in scan order. reslist is the class `ResList`:
  a `List` of nodes plus the map `res` from each node to its record's
  address (the `res` field of a ResidentNode). Its contents, read as a
  sequence of `Entry` values, are `View`. The merge of one accepted record
  is the function `Merge`, and `Collected` folds it over a scan. The init
  functions are foreign code and appear as their outcomes: `fret` for a
  direct record and `initok` for an automatic one.
* `intserver.dfy` (module `IntServers`): the interrupt servers of the
  single-processor build. lib->intserver is the class `IntServer`: one `List`
  per interrupt source, the ghost `queues` holding each list's nodes, and the
  port's enable state of each source as the sequence `enabled`. The cast
  from a list node back to its `Interrupt` is the map `owner`. A handler
  call is recorded as a `Call` of its code and data addresses.
* `rawdofmt.dfy` (module `Format`): the kernel's formatted output. A format
  is read as a sequence of `Piece` values (`Pieces`): literal characters and
  conversion specifications. `Formatted` is what the whole format prints:
  each piece's `Emit` in turn, with the variable arguments as a sequence of
  `Arg` values. The `put` callback appends to the returned string. `putul`
  works on a character array, as the C code does, and is proved to print
  `Number`: the padding, the sign and the digits (`Digits`) that read back as
  the value.
* `expansion.dfy` (module `Expansion`): expansion.library's device tree.
  Drivers, buses and devices are classes with the fields `init.c` updates;
  the driver list and each bus's children are sequences. The op tables of
  drivers and buses are foreign code: the model keeps which entries are
  present, and what a call returns is a parameter (`busInit`, `devInit`,
  `allocOk` for lAllocMem of a device's priv block, `spawn` for the bus a
  device's init creates, `busMatch`/`drvMatch` for the ismatch entries).
  The staged initialisation is specified by `Raise` for a bus and `DevRaise`
  for a device: the levels run and the first failure, which latches. The
  tree's finiteness is a ghost height that falls going down (`Tree`).
* `ambapp.dfy` (module `Ambapp`): the AMBA plug&play scan of the GRLIB root
  driver. Words are `bv32`. The decoders take identification words and bank
  address registers (BARs) apart; round-trip lemmas lay a word out from its
  fields (`IdWord`, `BarWord`) and read the fields back. Memory is a function
  `mem` from an address to the word there. `AhbSlots` and `ApbSlots` read
  and decode the slave records of an area; `Plug` is that information as the
  scans see it. `ApbScan` and `AhbScan` specify scan_apb and scan_ahb over
  the decoded slots, and the `AmbappBus` methods, which keep the bus
  frequency and the device records handed to lAddExpansionDev, are proved
  against them.
* `serialhw.dfy` (module `SerialHw`): the register side of the serial
  drivers, as far as it decides what the buffering code does. It holds the
  status bits that say whether the transmitter takes a byte (`Ready`,
  `TxFull`), the APBUART control words that inithw and finihw write
  (`InitCtrl`, `FiniCtrl`), the NS16550 register codes, and the NS16550
  interrupt loop, which picks a handler from each IIR value (`Isr`).
* `serialbuf.dfy` (module `SerialBuf`): the buffering the four drivers share,
  as functions on values. A request is seen as a `Buf` (length, actual,
  data). The receive ring is `Ring` over 512 bytes. `RxServe` is the second
  loop of isr_rx, and `Stored` is its third loop. `IsrTx` is isr_tx, and
  `CmdWrite` is cmd_write. The status words a transmit loop reads are the
  sequence `ans`, in read order.
* `serial.dfy` (module `Serial`): a unit as a class (`Unit`). Its fields are
  the ring (an `array<bv8>` with indexes `r` and `w`), rx.list and tx.list as
  sequences of `IoExtSer` requests, and whether the transmit interrupt is
  on. iBeginIO, iAbortIO, cmd_read, cmd_write, isr_rx and isr_tx are
  methods. Each is proved against the functions of `SerialBuf`. A request a
  method completes is returned for lReplyMsg.
* `serialdev.dfy` (module `SerialDev`): a device's unit table (`Device`),
  with iOpen (findadev and findunit) and iClose.

Integers are unbounded. `size_t` is the subset `0 <= x < 2^32`, and the
wrap-around of a 32-bit `size_t` is written out where the C code can wrap.

## Model

| member | source | states |
|---|---|---|
| Lists.List.constructor | mod/exec/lists.c:6-10 | a new list is empty |
| Lists.List.GetHead | mod/exec/lists.c:12-18 | NULL exactly for an empty list, else the first node |
| Lists.List.GetTail | mod/exec/lists.c:20-26 | NULL exactly for an empty list, else the last node |
| Lists.List.Insert | mod/exec/lists.c:28-37 | pred NULL puts the node at the head; otherwise it goes right after pred, and every other node keeps its place and order |
| Lists.List.Position | mod/exec/lists.c:42-48 | the walk stops at the first node of strictly lower priority, or at the tail |
| Lists.EnqueuePos | mod/exec/lists.c:39-53 | the insertion point has every node before it at priority >= p and the node after it below p |
| Lists.List.Enqueue | mod/exec/lists.c:39-53 | the node is inserted at EnqueuePos of the priorities; a list sorted by non-increasing priority stays sorted |
| Lists.EnqueueKeepsOrder | mod/exec/lists.c:39-53 | inserting at EnqueuePos keeps a non-increasing priority sequence non-increasing |
| Lists.EnqueueIsStable | mod/exec/lists.c:43-46 | a node enqueued at priority p goes after every node already queued at p (FIFO among equals) |
| Lists.InsertAtDistinct | mod/exec/lists.c:28-53 | inserting a node that is not on the list keeps every node on it at most once |
| Lists.List.Remove | mod/exec/lists.c:55-60 | exactly that node leaves the list; the others keep their order |
| Lists.RemoveAtDistinct | mod/exec/lists.c:55-60 | the removed node is no longer on the list |
| Lists.List.AddHead | mod/exec/lists.c:62-67 | the node becomes the first, the rest follow unchanged |
| Lists.List.AddTail | mod/exec/lists.c:69-74 | the node becomes the last, the rest precede unchanged |
| Lists.List.RemHead | mod/exec/lists.c:76-85 | an empty list gives NULL and stays empty; otherwise the first node is returned and removed |
| Lists.List.RemTail | mod/exec/lists.c:87-96 | an empty list gives NULL and stays empty; otherwise the last node is returned and removed |
| Lists.StrCmp | mod/exec/lists.c:98-105 | 0 exactly when the two NUL-terminated strings are equal, 1 otherwise |
| Lists.FindIndex | mod/exec/lists.c:107-117 | the first index whose name is present and equal; None iff no present name is equal |
| Lists.List.FindName | mod/exec/lists.c:107-117 | the node at FindIndex of the names, or NULL when there is none |
| Mem.AlignUp | mod/exec/mem.c:27-31 | the least multiple of the alignment at or above the address |
| Mem.AlignDown | mod/exec/mem.c:33-37 | the greatest multiple of the alignment at or below the address |
| Mem.NUnitsIsLeastCover | mod/exec/mem.c:39-44 | NUnits is the least number of 8-byte Header units covering max(n, 1) bytes |
| Mem.NUnitsAgree | mod/exec/mem.c:39-44 | the C expression gives the same count whenever n + 7 does not wrap |
| Mem.NUnitsWrapsToZero | mod/exec/mem.c:43 | for n = 2^32 - 1 the C expression wraps and gives 0 units |
| Mem.Fit | mod/exec/mem.c:98-117 | the next-fit search finds a run of at least n units, and finds none iff no run has n units |
| Mem.MemHeader.Search | mod/exec/mem.c:99-117 | the circular walk from first finds the run Fit names |
| Mem.MemHeader.Take | mod/exec/mem.c:102-112 | the run is carved (exact fit unlinked, else shortened at its high end), first becomes its predecessor and free drops by n Header units |
| Mem.MemHeader.Allocate | mod/exec/mem.c:92-119 | NULL with nothing changed when no run fits; otherwise the carved block, with the free list, first and free updated as Take states |
| Mem.CarveUnits | mod/exec/mem.c:102-111 | carving n units removes exactly n units from the free runs |
| Mem.CarveWellFormed | mod/exec/mem.c:102-109 | carving keeps the runs ascending, non-adjacent and non-empty behind the sentinel |
| Mem.CarveFree | mod/exec/mem.c:102-109 | the carved block lies at the high end of its run, and exactly its bytes stop being free |
| Mem.CarvedInside | mod/exec/mem.c:102-109 | the carved block lies above the sentinel and below the end of the last run |
| Mem.MemHeader.WalkToPred | mod/exec/mem.c:135-140 | the walk stops at the free run just below the block (PredIndex) |
| Mem.WalkStopsAtPred | mod/exec/mem.c:136-139 | the C loop's exit test holds at PredIndex |
| Mem.WalkStopsOnlyAtPred | mod/exec/mem.c:136-139 | the C loop's exit test holds at no other run |
| Mem.MemHeader.Deallocate | mod/exec/mem.c:121-158 | the block is linked in address order and merged with adjacent runs, first becomes the predecessor and free grows by NUNITS bytes |
| Mem.FreedUnits | mod/exec/mem.c:131-156 | freeing adds exactly n units to the free runs |
| Mem.FreedWellFormed | mod/exec/mem.c:141-156 | the free list stays ascending with no two runs adjacent, and the sentinel is never merged |
| Mem.FreedFree | mod/exec/mem.c:141-156 | after freeing, a byte is free iff it was free or lies in the block |
| Mem.ReleasableIff | mod/exec/mem.c:121-158 | a block can be given back iff none of its bytes is free |
| Mem.AllocateThenDeallocate | mod/exec/mem.c:92-158 | freeing the block just carved restores the free units and the free bytes exactly |
| Mem.CarveKeeps | mod/exec/mem.c:102-109 | another block in use stays in use and disjoint from the new block |
| Mem.FreedKeeps | mod/exec/mem.c:141-156 | freeing one block leaves every other block in use |
| Mem.MemHeader.constructor | mod/exec/mem.c:70-80 | a header with bounds lower/upper whose free list is the zero-unit sentinel alone, free 0 |
| Mem.InitMemHeader | mod/exec/mem.c:52-85 | NULL below minsz; otherwise the sentinel plus one run from mc[2] to the aligned top, free equal to its bytes |
| Memory.ServesIff | mod/exec/mem.c:183 | (mh.attr & attr) == (attr & MEMF_TYPE) holds iff the header has every requested type bit and shares no bit outside MEMF_TYPE |
| Memory.AnyIsServed | mod/exec/mem.c:183 | every header serves MEMF_ANY |
| Memory.ClearNeedsClearBitOff | mod/exec/mem.c:183 | a MEMF_CLEAR request is never served by a header whose own attr has MEMF_CLEAR set |
| Memory.Owner | mod/exec/mem.c:211-218 | the first header, in list order, with lower <= ptr <= upper, or None when no header contains ptr |
| Memory.OwnerUnique | mod/exec/mem.c:211-218 | with disjoint headers, the header containing ptr is the one found |
| Memory.Choose | mod/exec/mem.c:181-189 | the header chosen serves attr and has a run of n units |
| Memory.ChooseIsFirst | mod/exec/mem.c:181-189 | every header before the chosen one fails the attribute test or has no run of n units |
| Memory.MemoryList.AddMemHeader | mod/exec/mem.c:160-171 | pri, name and attr (as shorts) are set and the header is enqueued by priority |
| Memory.MemoryList.Enqueue | mod/exec/lib.c:134-138 | the header goes in at EnqueuePos of the header priorities |
| Memory.MemoryList.FindHeader | mod/exec/mem.c:181-189 | the walk ends at the header Choose names, with the run Fit names |
| Memory.MemoryList.TakeIn | mod/exec/mem.c:184 | header k is carved at run j; no other header changes |
| Memory.MemoryList.AllocMem | mod/exec/mem.c:173-197 | NULL with nothing changed when no header serves; otherwise the block of the first serving header that fits; cleared iff MEMF_CLEAR |
| Memory.AllocConsistent | mod/exec/mem.c:173-197 | a new block is not NULL, not already in use, and inside its header; every block in use stays in use and disjoint |
| Memory.AllocInUse | mod/exec/mem.c:184 | the block lies in the header it came from, and the headers stay valid |
| Memory.MemoryList.FindOwner | mod/exec/mem.c:211-218 | the walk finds Owner |
| Memory.MemoryList.GiveBackIn | mod/exec/mem.c:214 | the block is freed into header k; no other header changes |
| Memory.MemoryList.FreeMem | mod/exec/mem.c:199-223 | NULL is ignored; a pointer in no header raises the dead-end alert and changes nothing; otherwise the block goes back to its header |
| Memory.FreeConsistent | mod/exec/mem.c:199-223 | freeing a block in use keeps every other block in use and the headers valid |
| Memory.MemoryList.AvailMem | mod/exec/mem.c:249-266 | the sum, modulo 2^32, of the free bytes of the headers that serve attr |
| Memory.AvailUpdate | mod/exec/mem.c:257-262 | changing one header's free count changes Avail by that amount when the header serves attr |
| Memory.AllocThenFree | mod/test/exec/xyz.c:66-81 | freeing the block just allocated restores every header's free count and AvailMem |
| Memory.AllocThenFreeAddresses | mod/exec/mem.c:173-223 | freeing the block just allocated restores exactly the free bytes of its header |
| Memory.VecBlockHolds | mod/exec/mem.c:228 | without wrap-around, the block holds the size word and the requested bytes |
| Memory.VecBytesWraps | mod/exec/mem.c:228 | numbytes = 2^32 - 8 wraps to a request of 0 bytes, a block of one unit |
| Memory.MemoryList.AllocVec | mod/exec/mem.c:225-236 | NULL when no header serves; otherwise the pointer just past the size word, which records the enlarged size |
| Memory.MemoryList.VecKept | mod/exec/mem.c:233 | writing the size word in front of the block changes no header, so the allocator stays well-formed |
| Memory.MemoryList.FreeVec | mod/exec/mem.c:238-247 | NULL is ignored; otherwise the block in front of ptr is freed with the size recorded in it |
| Memory.ListTaken | mod/exec/mem.c:276-282 | a cleared MemList just allocated holds only itself, and its block is all its header owes |
| Memory.MemoryList.FillOne | mod/exec/mem.c:288-297 | on success entry i holds a new block of the requested size; on failure everything taken so far is given back |
| Memory.MemoryList.FillEntries | mod/exec/mem.c:284-298 | every entry is filled in order, or everything is given back and the result is NULL |
| Memory.MemoryList.AllocEntry | mod/exec/mem.c:268-301 | all or nothing: either every entry holds a block of its size and the headers owe exactly those blocks, or NULL with every free count back where it was |
| Memory.MemoryList.Unwind | mod/exec/mem.c:290-293 | the failure path gives every block taken back, so every free count is restored |
| Memory.MemoryList.FreeEntries | mod/exec/mem.c:310-314 | every entry's block, NULL ones ignored, goes back to its header |
| Memory.MemoryList.FreeList | mod/exec/mem.c:315-316 | the MemList block goes back last |
| Memory.MemoryList.FreeEntry | mod/exec/mem.c:303-317 | NULL is ignored; otherwise every header gets back exactly the units the list's blocks took from it |
| Memory.ReleaseStep | mod/exec/mem.c:311-313 | freeing one more entry keeps the rest in use and returns its units to its owner |
| Memory.ReturnedSnoc | mod/exec/mem.c:311-313 | once every header's free count has risen by its share of one more block, the first i + 1 blocks of the list are given back |
| Memory.TakeStep | mod/exec/mem.c:289-296 | filling one more entry keeps every held block in use and charges its units to its owner |
| Bytes.MovedThroughTemporary | mod/exec/memmove.c:6-27 | the move's result is what copying the n source bytes to a temporary and then to dst gives, so overlap never corrupts the copy |
| Bytes.MovedNothing | mod/exec/memmove.c:10-12 | a zero-length move, or a move onto itself, leaves memory unchanged |
| Bytes.FilledTwice | mod/exec/memmove.c:29-39 | setting the same bytes to the same value twice is setting them once |
| Bytes.ForwardOverlapCorrupts | mod/exec/memmove.c:13-24 | on memory [1, 2, 0], a forward byte loop from 0 to 1 gives [1, 1, 1] where the move gives [1, 1, 2]: why iMemMove copies backwards when src < dst < src + n |
| Bytes.MemMove | mod/exec/memmove.c:6-27 | returns dst; afterwards dst[0..n) holds the original src[0..n) and every other byte is unchanged, for overlapping regions too |
| Bytes.CopyBackward | mod/exec/memmove.c:13-19 | the backward loop, for src <= dst, leaves memory as the move specifies |
| Bytes.CopyForward | mod/exec/memmove.c:20-24 | the forward loop, for dst <= src or disjoint regions, leaves memory as the move specifies |
| Bytes.ForwardMoves | mod/exec/memmove.c:20-24 | when dst <= src or the regions are disjoint, copying byte by byte from the front gives the move's result, which is why iMemMove copies forward in every case but src < dst < src + n |
| Bytes.MemCpy | libmiss/memcpy.c:4-11 | for disjoint regions, dst[i] equals the old src[i] for i < n, nothing else changes, and dst0 is returned |
| Bytes.MemSet | mod/exec/memmove.c:29-39 | every byte of dst[0..len) becomes (unsigned char)c, nothing else changes, and dst is returned; libmiss memset (libmiss/memset.c:4-12) is the same loop |
| Tasks.HighestFree | mod/exec/task.c:116-129 | the result is -1 or a free signal number at most n, and every number above it up to n is taken |
| Tasks.AllocNumberIsFree | mod/exec/task.c:102-130 | a granted signal was free; with reqnum >= 0 the request fails exactly when that signal is taken; with reqnum < 0 it fails exactly when all 32 are taken |
| Tasks.FreeUndoesAlloc | mod/exec/task.c:132-143 | FreeSignal of the signal AllocSignal granted restores sigalloc |
| Tasks.AlignInt | mod/exec/task.c:15-18 | the address rounded up to int alignment: a multiple of 4, and within 3 above dest when no wrap-around occurs |
| Tasks.SetCanaries | mod/exec/task.c:14-23 | the int at p + 4i holds i for i < num, p is dest aligned, the new lower bound is past the canaries, and no other word changes |
| Tasks.CheckCanaries | mod/exec/task.c:25-32 | the alert is raised exactly when some canary no longer holds its index |
| Tasks.SearchFree | mod/exec/task.c:116-129 | the downward search from signal 31 returns the highest free signal, or -1 |
| Tasks.Task.Prepare | mod/exec/task.c:36-49 | canaries laid and the stack bound moved above them; not attached, ready, only SIGF_SINGLE allocated, no signals waited for or received, the default trap handler if none was set |
| Tasks.Task.AllocSignal | mod/exec/task.c:102-139 | returns AllocNumber of the old sigalloc; on success that bit is set in sigalloc and cleared in sigwait and sigrecvd, on failure nothing changes |
| Tasks.Task.FreeSignal | mod/exec/task.c:141-143 | clears exactly that bit of sigalloc |
| Tasks.Task.ClearSignal | mod/exec/task.c:145-159 | returns the old sigrecvd and clears only the masked bits |
| Tasks.ReadyInsert | mod/exec/task.c:52 | enqueueing a ready task by priority keeps taskready distinct, all ready and in priority order, and adds only that task |
| Tasks.ReadyRemove | mod/exec/task.c:85 | removing a task from taskready keeps it distinct, ready and in priority order, and drops only that task |
| Tasks.Kernel.Located | mod/exec/task.c:161-199 | for a task on a kernel list, its state says which list: READY iff on taskready, WAIT iff on taskwait, REMOVING or REMOVED iff on taskremoved |
| Tasks.Kernel.EnqueueReady | mod/exec/task.c:52 | iEnqueue on taskready: inserted at the enqueue position for its priority; the kernel invariant holds |
| Tasks.Kernel.RemoveReady | mod/exec/task.c:85 | iRemove of a ready task: taken out of taskready, on no list afterwards; the kernel invariant holds |
| Tasks.Kernel.MakeReady | mod/exec/task.c:170-172 | a waiting task leaves taskwait, becomes READY and is enqueued on taskready by priority |
| Tasks.Kernel.Block | mod/exec/task.c:197-199 | a ready task leaves taskready, becomes WAIT and goes to the tail of taskwait |
| Tasks.Kernel.AddTask | mod/exec/task.c:34-57 | the task is set up as Prepare states and enqueued on taskready by priority; it is returned |
| Tasks.Kernel.RemTask | mod/exec/task.c:78-88 | the calling ready task leaves taskready, becomes REMOVING and goes to the tail of taskremoved |
| Tasks.Kernel.Signal | mod/exec/task.c:161-179 | the mask is always ORed into sigrecvd; the task moves from taskwait to taskready by priority exactly when it was WAIT and now has a signal it waits for, otherwise no list changes |
| Tasks.Kernel.WaitStep | mod/exec/task.c:188-203 | one pass of the wait loop: with a match, returns it and clears only the masked bits; without, records sigmask in sigwait and moves the task to the tail of taskwait |
| Tasks.WokenWaitMatches | mod/exec/task.c:161-192 | a task that blocked with no match and is then woken by a signal finds, on its next pass, exactly the sent bits of its mask |
| Tasks.Kernel.SetTaskPri | mod/exec/task.c:209-227 | returns the old priority; stores the new one as a short; a READY task is moved to its new place in taskready, any other task's lists are unchanged |
| Tasks.Kernel.Requeue | mod/exec/task.c:218-219 | a ready task with its new priority is removed and enqueued again; the same tasks stay on taskready |
| Tasks.Kernel.ProcessRemoving | mod/exec/mp.c:31-44 | a REMOVING task becomes REMOVED and stays on taskremoved; the cleanup task receives SIGF_CLEANUP |
| Tasks.Removing | mod/exec/func0.c:47-53 | the tasks kept are exactly the REMOVING tasks of the list |
| Tasks.Finished | mod/exec/func0.c:47-53 | the tasks taken are exactly the tasks of the list that are not REMOVING |
| Tasks.PartitionStep | mod/exec/func0.c:47-53 | one step of the partition loop appends the head task to exactly one of the two lists |
| Tasks.PartitionCounts | mod/exec/func0.c:47-57 | the partition loses and duplicates no task: the two lists' lengths add up, and both stay distinct |
| Tasks.Kernel.Sweep | mod/exec/func0.c:42-58 | taskremoved becomes its REMOVING tasks in order; the other tasks are returned in order, all REMOVED and distinct; the kernel invariant holds |
| Tasks.FreeNode | mod/exec/func0.c:8-17 | NT_MEMLIST gives a FreeEntry request, NT_MESSAGE a ReplyMsg request, any other type none |
| Tasks.Gather | mod/exec/func0.c:60-66 | every cleanlist node of the taken tasks is moved, tasks in order and each cleanlist head to tail; the cleanlists end empty |
| Tasks.FreeAll | mod/exec/func0.c:69-71 | freenode is applied to each gathered node in order |
| Tasks.Dispose | mod/exec/func0.c:60-71 | the cleanlists end empty, the states are unchanged, and the requests are those of every node, in task then cleanlist order |
| Tasks.Kernel.Clear | mod/exec/func0.c:60-71 | Dispose on tasks no longer on the kernel's lists: the requests are those of their cleanlists, in order, and the kernel invariant still holds |
| Tasks.Kernel.StatesKept | mod/exec/func0.c:60-71 | emptying cleanlists leaves the lists and the states and priorities of their tasks as they were, so the kernel invariant still holds |
| Tasks.CleanupSignalHeld | mod/exec/func0.c:30-31 | SIGF_CLEANUP is the bit of SIGB_CLEANUP; allocating it answers the bit number when it was free and -1 when it was taken, and either way the bit is allocated afterwards, so the KASSERT holds |
| Tasks.Task.ClaimCleanup | mod/exec/func0.c:30-31 | the cleanup task's signal allocation is Grant of SIGB_CLEANUP, and the bit is allocated afterwards |
| Tasks.Kernel.WaitCleanup | mod/exec/func0.c:39 | lWait(SIGF_CLEANUP): woken exactly when SIGF_CLEANUP was received, which is then cleared; otherwise the task waits on that mask; taskremoved and its tasks are not touched |
| Tasks.RemovedKept | mod/exec/func0.c:47-57 | while the states and cleanlists of the tasks on a list are unchanged, so are its REMOVING tasks, its other tasks and their cleanlists |
| Tasks.RemovingKept | mod/exec/func0.c:47-57 | while the states of the tasks on a list are unchanged, so are its REMOVING tasks |
| Tasks.FinishedKept | mod/exec/func0.c:47-57 | while the states and cleanlists of the tasks on a list are unchanged, so are its other tasks and their cleanlists |
| Tasks.Kernel.Reap | mod/exec/func0.c:42-71 | taskremoved keeps only its REMOVING tasks, and the requests are freenode of every cleanlist node of the other tasks, in task then cleanlist order |
| Tasks.Kernel.CleanupPass | mod/exec/func0.c:39-71 | one pass of the cleanup loop: woken exactly when SIGF_CLEANUP was received; if not, the task waits and nothing else changes; if so, taskremoved keeps only its REMOVING tasks and every cleanlist node of the others is freed in order |
| Mutexes.Obtain | mod/exec/mutex.c:30-76 | afterwards the caller owns the mutex or waits in its queue; the queue grows, by the caller at the tail, exactly when the outcome is Queued |
| Mutexes.Release | mod/exec/mutex.c:78-104 | a task is handed the mutex only when it was the head of the queue; it then owns it un-nested and the rest of the queue is kept in order; otherwise the queue is unchanged |
| Mutexes.ObtainSound | mod/exec/mutex.c:40-75 | Obtain by a task not already waiting keeps the mutex sound: a free mutex has nest 0 and no waiters, and waiters are distinct and exclude the owner |
| Mutexes.ReleaseSound | mod/exec/mutex.c:82-98 | Release by the owner keeps the mutex sound |
| Mutexes.ServedInOrder | mod/exec/mutex.c:87-98 | waiters are served FIFO: the n-th release of an un-nested mutex makes the n-th waiter owner with nest 0 and leaves the waiters behind it queued |
| Mutexes.NestRoundTrip | mod/exec/mutex.c:63-85 | the owner's nested Obtain is Nested, and its Release restores the mutex exactly |
| Mutexes.TakeRoundTrip | mod/exec/mutex.c:37-49 | taking a free mutex gives it to the caller with nest 0, and releasing it leaves it free |
| Mutexes.Mutex.constructor | mod/exec/mutex.c:7-12 | a new mutex is free: no owner, nest 0, empty queue |
| Mutexes.Mutex.ObtainMut | mod/exec/mutex.c:30-76 | the new mutex and outcome are Obtain's; the mutex stays sound and the kernel valid; SIGF_SINGLE is cleared unless the mutex was free; a queued caller is WAIT on SIGF_SINGLE, moved from taskready to the tail of taskwait |
| Mutexes.Mutex.Contend | mod/exec/mutex.c:51-75 | after clearing SIGF_SINGLE, the re-test takes a mutex freed meanwhile, nests it for its owner, or queues and blocks the caller, as Obtain says |
| Mutexes.Mutex.Enlist | mod/exec/mutex.c:69-73 | the caller joins the queue's tail and, its SIGF_SINGLE being clear, blocks in Wait: WAIT state, waiting for SIGF_SINGLE, on taskwait's tail |
| Mutexes.Mutex.ReleaseMut | mod/exec/mutex.c:78-104 | the new mutex and the signalled task are Release's; the mutex stays sound and the kernel valid; the new owner receives SIGF_SINGLE and, if it was waiting for it, becomes ready |
| Mutexes.BootstrapObtain | mod/exec/mutex.c:25-26 | the init-time ObtainMutex leaves the mutex unchanged |
| Mutexes.BootstrapRelease | mod/exec/mutex.c:27-28 | the init-time ReleaseMutex leaves the mutex unchanged |
| Ports.Message.constructor | mod/exec/createtask.c:96-99 | a new message has no node type yet, and the given reply port and length |
| Ports.MsgPort.constructor | mod/exec/createtask.c:64-71 | a new port has an empty message list and the given task and signal bit |
| Ports.PutIt | mod/exec/msg.c:6-16 | the message is tagged and appended at the tail; the port stays sound; the port's task, if any, receives the port's signal bit and is made ready if it waited for it; the kernel's set of tasks is unchanged |
| Ports.PutMsg | mod/exec/msg.c:18-20 | putit with NT_MESSAGE: appended at the tail, tagged NT_MESSAGE, the port's task signalled |
| Ports.GetMsg | mod/exec/msg.c:22-30 | NULL for an empty port, which stays empty; otherwise the head message, removed, the rest kept in order (FIFO) |
| Ports.ReplyMsg | mod/exec/msg.c:32-43 | without a reply port: 0, tagged NT_FREEMSG, no task touched; otherwise 1, tagged NT_REPLYMSG and appended to the reply port, whose task is signalled |
| Ports.WaitPortStep | mod/exec/msg.c:45-58 | returns the head exactly when the port is non-empty, leaving it queued; otherwise the caller consumes a pending port signal or blocks waiting for it |
| Ports.WaitSignal | mod/exec/msg.c:55 | lWait on the port's bit: a pending signal is cleared and the caller stays ready, else it moves to taskwait's tail waiting for that bit |
| Ports.WaitMsgStep | mod/exec/msg.c:60-78 | done exactly when the message is NT_REPLYMSG, and then it is removed from its reply port; otherwise the caller waits for the reply port's signal |
| Ports.RemoveKept | mod/exec/msg.c:71 | removing one message from a list leaves only messages that were on it |
| Ports.Serve | mod/test/exec/msg0.c:25-38 | the receiver takes the one queued message, increments its length modulo 2^32 and replies it onto its reply port |
| Ports.Exchange | mod/test/exec/msg0.c:53-66 | one round of the test: the message sent to p0 comes back off p1 as the same message, tagged NT_REPLYMSG and one longer, with both ports empty again |
| Libraries.Set0 | mod/exec/lib.c:122 | `flags \| LIBF_DELEXP`: bit 0 set and every other bit kept |
| Libraries.Clear0 | mod/exec/lib.c:188 | `flags & ~LIBF_DELEXP`: bit 0 cleared and every other bit kept |
| Libraries.NegSize | mod/exec/lib.c:24-26 | the table size rounded up to the least multiple of ALIGNOF(MemAlign) at or above it |
| Libraries.LibNames | mod/exec/lists.c:107-117 | the library names in list order, one per library, as lFindName compares them |
| Libraries.LibPris | mod/exec/lists.c:39-53 | the library priorities in list order, one per library, as iEnqueue compares them |
| Libraries.Openable | mod/exec/lib.c:160-163 | the library OpenLibrary settles on: the first, in list order from k, with the name and at least the version; None when there is none |
| Libraries.OpenableSkip | mod/exec/lib.c:160-163 | resuming the search after libraries of other names finds the same library |
| Libraries.ExpungeLib | mod/exec/lib.c:100-113 | the library's block goes back to FreeMem exactly when Expunge returned a segment; the result is that segment |
| Libraries.MakeLibrary | mod/exec/lib.c:11-54 | one MEMF_CLEAR block of the rounded table size plus possize: NULL with every free count as it was, or a new library laid out in it whose block, when freed, restores every free count |
| Libraries.InitLibrary | mod/exec/lib.c:34-51 | the library is laid out in the block; when init fails the block is freed and the result is NULL exactly then |
| Libraries.NewLibrary | mod/exec/lib.c:34-46 | the library records its block and size, holds the copied table, and carries the resident information or zero fields |
| Libraries.AllocCleared | mod/exec/lib.c:29-32 | lAllocMem with MEMF_CLEAR or MEMF_ANY: NULL exactly when no header has room, with nothing changed; otherwise a block whose release restores every free count |
| Libraries.ExpungeSizeWraps | mod/exec/lib.c:37 | a 32775-byte library is recorded in the short allocatedsize and freed as 2^32 - 32761 bytes, a different number of units |
| Libraries.SetFunction | mod/exec/lib.c:56-86 | the entry at negoffset becomes newfunc and no other entry changes; the previous entry is returned when asked for; the result is 0 |
| Libraries.PatchAndRestore | mod/exec/lib.c:81-85 | installing a function and then the entry SetFunction returned restores the table |
| Libraries.LibList.constructor | mod/exec/lists.c:6-10 | a new library list is empty |
| Libraries.LibList.Enqueue | mod/exec/lib.c:134-142 | the library is inserted by priority, after every library of equal priority |
| Libraries.LibList.FindFrom | mod/exec/lists.c:107-117 | the first library from k whose name equals the argument, skipping NULL names; None when there is none |
| Libraries.LibList.Lookup | mod/exec/lib.c:160-163 | the repeated lFindName loop finds exactly Openable from the head |
| Libraries.LibList.DropOpen | mod/exec/lib.c:213-217 | one opener less; the library leaves the list and is expunged exactly when that was the last opener and LIBF_DELEXP is set; otherwise nothing else changes |
| Libraries.LibList.RemLib | mod/exec/lib.c:115-132 | an open library only gets LIBF_DELEXP; a closed one leaves the list and is expunged |
| Libraries.LibList.Attach | mod/exec/lib.c:164-196 | one more opener during Open; a successful Open keeps it and clears LIBF_DELEXP; a failed one is undone, with the delayed expunge at 0 |
| Libraries.LibList.OpenLibrary | mod/exec/lib.c:152-204 | NULL with nothing changed unless Openable finds a library; then that library is returned with one more opener and LIBF_DELEXP cleared, or, when Open fails, NULL with the open undone |
| Libraries.LibList.CloseLibrary | mod/exec/lib.c:206-223 | one opener less; removal and expunge exactly at 0 with LIBF_DELEXP set |
| Libraries.OpenClose | mod/test/exec/xyz.c:117-128 | an open that finds a library followed by its close leaves the list, the memory and the opener count as they were |
| Devices.IORequest.constructor | mod/exec/createtask.c:94-97 | a request in cleared memory: no device, no flags, no command, no error |
| Devices.OpenDevice | mod/exec/dev.c:19-61 | an unknown name gives IOERR_NOTFOUND and a NULL device with nothing changed; otherwise the first device with the name is recorded, and the result is Open's error, with the opener count and LIBF_DELEXP as OpenLibrary leaves them |
| Devices.Opened | mod/exec/dev.c:34-58 | the device found is recorded in the request and the result is Open's error; the open is kept with LIBF_DELEXP cleared, or undone with the delayed expunge at 0 |
| Devices.CloseDevice | mod/exec/dev.c:63-82 | one opener less; removal from devlist and expunge exactly at 0 with LIBF_DELEXP set |
| Devices.Tag | mod/serial/pl011/impl.c:382-383 | BeginIO starts by tagging the message NT_MESSAGE and resetting the error |
| Devices.BeginIO | mod/serial/pl011/impl.c:375-417 | a request completed without IOF_QUICK is replied onto its reply port (NT_REPLYMSG) or freed (NT_FREEMSG); one completed with IOF_QUICK stays NT_MESSAGE and unqueued; a queued one loses IOF_QUICK |
| Devices.CheckIO | mod/exec/dev.c:97-102 | 1 exactly when IOF_QUICK is set or the message is NT_REPLYMSG, else 0 |
| Devices.WaitIOStep | mod/exec/dev.c:104-109 | with IOF_QUICK the error at once and nothing else; otherwise the error once the reply has been removed from the reply port, or the caller waits for the port's signal |
| Devices.SendIO | mod/exec/dev.c:91-95 | IOF_QUICK is cleared; a queued request is not done; a completed one is done and appended to its reply port |
| Devices.DoIO | mod/exec/dev.c:84-89 | IOF_QUICK is set; a request completed in place gives its error with nothing queued and no task moved; a queued one is not done and the caller waits |
| Memory.GiveBack | mod/exec/createtask.c:56-64 | a block just handed out by the allocator can go straight back, and that leaves the regions as they were before the allocation |
| Creation.StackSize | mod/exec/createtask.c:19-21 | the stack is at least lib->minstack and at least the size asked for, and is one of the two |
| Creation.StackSpan | mod/exec/createtask.c:33-34 | the stack bottom and top the task records are the stack size apart modulo 2^32, and exactly that far apart when the block does not wrap |
| Creation.NewTask | mod/exec/createtask.c:31-46 | the task gets the name, the priority as a short, the entry point, the user data, type NT_TASK and the stack bounds; its cleanlist is a MemList node, whose clean-up is FreeEntry, followed by the caller's cleanup nodes in order, and the caller's list ends empty |
| Creation.Drain | mod/exec/createtask.c:42-46 | the caller's cleanup nodes move, head first, to the tail of the task's cleanlist; the caller's list ends empty |
| Creation.CreateTask | mod/exec/createtask.c:6-50 | NULL exactly when iAllocEntry fails, and then every free count, the ready list and the caller's list are as they were; otherwise two blocks of the task size and the stack size, held by the MemList, whose release gives every free count back, and the task, carrying what it was given and the caller's cleanup nodes after its MemList node, is ready and enqueued on taskready by priority |
| Creation.LayTask | mod/exec/createtask.c:31-47 | the task carries what it was given, its canaries start at the aligned stack bottom, its stack top is the block end (wrapping at 2^32), so the top is the stack size above the bottom modulo 2^32 and exactly when the block does not wrap, its cleanlist is as NewTask leaves it, and iAddTask makes it ready and enqueues it on taskready by priority with the kernel invariant kept |
| Creation.Admit | mod/exec/createtask.c:47 | lAddTask makes the task ready and enqueues it on taskready by priority with the kernel invariant kept; its canaries start at the aligned stack bottom, and what it was given, its cleanlist and the caller's list stay as they were |
| Creation.Launch | mod/exec/createtask.c:31-47 | the task is laid out as LayTask states, ready and enqueued by priority, and the allocator stays well-formed |
| Creation.PendingKept | mod/exec/createtask.c:42-46 | while the caller's list is unchanged, so are the nodes it still holds |
| Creation.FreeNodeKept | mod/exec/func0.c:8-17 | while a node's type is unchanged, so is the clean-up freenode makes for it |
| Creation.CreateMsgPort | mod/exec/createtask.c:52-73 | NULL exactly when no block is free or the task has no free signal, and then memory and signals are as they were; otherwise an empty port signalling the calling task with its highest free signal, that signal allocated, and a block whose release gives every free count back |
| Creation.NewPort | mod/exec/createtask.c:61-70 | NULL exactly when lAllocSignal(-1) finds no free signal, and then the task's signals are unchanged; otherwise a fresh empty port of the calling task using the highest free signal, which is now allocated |
| Creation.Refuse | mod/exec/createtask.c:62-64 | the port's block goes back, the regions are as they were before it was allocated, and the task's allocated signals are untouched |
| Creation.DeleteMsgPort | mod/exec/createtask.c:75-81 | NULL changes nothing; otherwise the port's signal is freed and its block released |
| Creation.CreateIORequest | mod/exec/createtask.c:83-102 | NULL exactly when the reply port is NULL or no block is free, with nothing changed; otherwise an unsent reply message for the port with the size as length, which CheckIO already reports done, in a block whose release gives every free count back |
| Creation.NewRequest | mod/exec/createtask.c:98-100 | the request is an NT_REPLYMSG message for the reply port with the size as length, bound to no device and with no flags |
| Creation.DeleteIORequest | mod/exec/createtask.c:104-109 | NULL changes nothing; otherwise the block is released with the size recorded in the message's length |
| Scheduling.Lead | mod/exec/mp.c:414-427 | how many tasks the first loop takes off the head of taskready: at most one per online CPU, none of them idle, stopping at the first idle task |
| Scheduling.LeadUnique | mod/exec/mp.c:414-427 | any count with those three properties is Lead |
| Scheduling.HeadStep | mod/exec/mp.c:419-426 | while an idle task is ready the list has a head at every turn (the KASSERT), and one more turn takes it exactly when it is not idle |
| Scheduling.LeadApart | mod/exec/mp.c:422-424 | the first loop never takes an idle task |
| Scheduling.Scan | mod/exec/mp.c:414-427 | tlist is the first Lead tasks of taskready in order, holding no idle task, and allmask marks every online CPU |
| Scheduling.TakeOff | mod/exec/mp.c:425 | removing the leading tasks keeps the kernel invariant; the removed tasks are ready and on no list |
| Scheduling.Gather | mod/exec/mp.c:414-427 | the old taskready is tlist followed by the new one, tlist has Lead tasks, none idle, all ready and on no list, and allmask marks every CPU |
| Scheduling.IsInList | mod/exec/mp.c:376-383 | 1 exactly when the target is on the list |
| Scheduling.SetHeir | mod/exec/mp.c:385-393 | the CPU gets the heir; the local CPU gets switch_needed, any other CPU an IPI |
| Scheduling.Keep | mod/exec/mp.c:429-442 | a CPU whose heir is on tlist is marked and its heir leaves tlist for kept; rest is tlist without the kept heirs, in order, and the marked CPUs leave as many unmarked as tasks kept fewer |
| Scheduling.KeepDone | mod/exec/mp.c:429-442 | after the loop the marked CPUs are those whose heirs are on tlist, rest is the tasks of tlist that are nobody's heir, and kept and rest split tlist |
| Scheduling.Pick | mod/exec/mp.c:444-459 | the CPUs the third loop serves are the unmarked ones in cpuonline order, as many as tasks remain, and they are marked |
| Scheduling.Apply | mod/exec/mp.c:446-459 | the CPU at done[m] gets rest[m] through setheir, every other CPU keeps heir and flag, and the IPIs go to exactly the served CPUs other than local |
| Scheduling.HandOut | mod/exec/mp.c:444-459 | Apply stated on the heirs and flags before and after the loop |
| Scheduling.Idle | mod/exec/mp.c:462-475 | every unmarked CPU gets its idle task, with setheir only when the heir changes; marked CPUs are untouched; all CPUs end marked (assmask == allmask) |
| Scheduling.IdleOut | mod/exec/mp.c:462-475 | Idle stated on the heirs and flags before and after the loop |
| Scheduling.Plan | mod/exec/mp.c:340-370 | the heir of every CPU in the plan of the design comment: kept heir, next task of tlist in cpuonline order, or idle task |
| Scheduling.PlanFrom | mod/exec/mp.c:350-351 | every planned heir is a task of tlist or the CPU's own idle task, and a CPU whose heir is on tlist keeps it |
| Scheduling.AssignedIs | mod/exec/mp.c:340-370 | the planned heir of a CPU is its kept heir, a task of tlist that was nobody's heir handed out in order, or its idle task |
| Scheduling.AssignedDiffer | mod/exec/mp.c:372-373 | two CPUs are planned different heirs |
| Scheduling.PlanDistinct | mod/exec/mp.c:372-373 | no task is heir of two CPUs in the plan |
| Scheduling.PlanCovers | mod/exec/mp.c:460 | with CPUs enough, every task of tlist is some CPU's heir, so tlist ends empty |
| Scheduling.ComposeHeirs | mod/exec/mp.c:444-474 | the third and fourth loops together give every CPU its planned heir, and change the heir of every CPU served by the third |
| Scheduling.ComposeFlags | mod/exec/mp.c:444-474 | after both loops a CPU is told exactly when its heir changed: switch_needed when local, an IPI otherwise |
| Scheduling.DividedCount | mod/exec/mp.c:444-460 | there are as many free CPUs as tasks of tlist that are nobody's heir |
| Scheduling.Requeue | mod/exec/mp.c:437-438 | enqueuing tasks on no list keeps the kernel invariant and adds exactly those tasks to taskready |
| Scheduling.PutBack | mod/exec/mp.c:425-460 | after the kept heirs and the handed-out tasks are enqueued again, taskready holds its tasks and those of tlist, and the idle tasks stay ready |
| Scheduling.Divide | mod/exec/mp.c:429-442 | the second loop on a tlist of ready tasks on no list: kept and rest split tlist and the marks are as KeepDone states |
| Scheduling.Take | mod/exec/mp.c:414-442 | the first two loops: tlist comes off the head of taskready and is split as Divide states |
| Scheduling.Sort | mod/exec/mp.c:414-460 | the first two loops and the re-enqueuing: taskready holds the same tasks, tlist is the old leading tasks, and tlist is split as Divide states |
| Scheduling.Assign | mod/exec/mp.c:444-475 | the last two loops give every CPU its planned heir, no task twice, every task of tlist a CPU, and tell exactly the CPUs whose heir changed |
| Scheduling.AssignUnder | mod/exec/mp.c:444-475 | Assign, with the kernel invariant and the ready idle tasks kept |
| Scheduling.Schedule | mod/exec/mp.c:403-478 | the heirs are the plan for the old heirs and the old leading ready tasks, no task is heir of two CPUs, every task taken is an heir, taskready holds the same tasks, and exactly the CPUs whose heir changed are told |
| Scheduling.FindCpu | mod/exec/mp.c:148-160 | the first CPU of cpuoffline with the number, or NULL exactly when none has it |
| Scheduling.CheckStack | mod/exec/mp.c:188-198 | the alert is raised exactly when the stack pointer is outside the task's stack |
| Scheduling.SwitchAway | mod/exec/mp.c:221-237 | switch_needed is cleared; the CPU stays when the heir is running, otherwise the heir runs and a task switched away from in TS_REMOVING is left in the removing slot |
| Scheduling.ProcessSlot | mod/exec/mp.c:31-44 | a task in the slot becomes TS_REMOVED, the slot is emptied and the cleanup task gets SIGF_CLEANUP; an empty slot changes nothing |
| Scheduling.SwitchPass | mod/exec/mp.c:221-244 | a task that removed itself and is switched away from ends TS_REMOVED with the cleanup task signalled, and the slot is empty again |
| Residents.Scanned | mod/exec/resident.c:86-94 | every address the scan accepts holds a record whose match word is RTC_MATCHWORD and whose match tag points at itself, and lies in [p, end) |
| Residents.ScanSkips | mod/exec/resident.c:91-93 | a position without a matching record is stepped over by ALIGNOF(Resident) |
| Residents.ScannedTakesTagged | mod/exec/resident.c:90-94 | a record at a scan position inside the range is accepted there exactly when it matches |
| Residents.ScannedResumes | mod/exec/resident.c:98-111 | each accepted record ends before the next one begins: the scan resumes at the accepted record's endskip, so records come in increasing order and none lies inside another |
| Residents.PutOrderly | mod/exec/resident.c:107-110 | enqueueing a node of a name not on reslist keeps names distinct and priorities non-increasing |
| Residents.RemoveOrderly | mod/exec/resident.c:103 | taking a node off keeps reslist orderly, and its name is then absent |
| Residents.MergeOrderly | mod/exec/resident.c:97-110 | merging an accepted record keeps one node per name, each carrying its record's name and priority, in priority order |
| Residents.MergeContents | mod/exec/resident.c:97-110 | when a node of that name stands for a higher version nothing changes; otherwise reslist afterwards holds exactly the nodes of other names and a node for the new record, so an equal version replaces the old node |
| Residents.MergeKeeps | mod/exec/resident.c:97-110 | after a merge reslist has a node of the merged name with at least its version, and every name kept before is still kept with at least the version it had |
| Residents.Collected | mod/exec/resident.c:82-113 | reslist after a scan is orderly: one node per name, priorities non-increasing, each node carrying its record's name and priority |
| Residents.CollectedKeepsHighest | mod/exec/resident.c:86-112 | after the scan, for every accepted record and every node present before, reslist holds a node of that name whose record has at least that version |
| Residents.CollectedFrom | mod/exec/resident.c:86-112 | every node after the scan was there before or stands for an accepted record |
| Residents.CollectStep | mod/exec/resident.c:90-111 | one accepted record: the scan goes on from its endskip with that record merged |
| Residents.AtLevelMembers | mod/exec/resident.c:69-77 | the records InitCode hands over are exactly those of reslist whose flags masked by RTF_LEVEL equal the level |
| Residents.InitResident | mod/exec/resident.c:21-62 | a direct record fails exactly when its possize allocation fails or its init function returns non-zero, and returns ExecBase otherwise; an automatic record fails exactly when MakeLibrary fails, leaving the lists and memory as before, and otherwise yields a fresh library laid out from the record, added to liblist for NT_LIBRARY and to devlist for NT_DEVICE |
| Residents.DirectInit | mod/exec/resident.c:26-46 | posdata is NULL exactly when possize is 0 or the cleared allocation fails, and memory is then unchanged; success exactly when no allocation failed and the init function returned 0; a block allocated before a failing init function is kept |
| Residents.AutoInit | mod/exec/resident.c:48-61 | NULL exactly when init refuses or the allocation fails, with the lists unchanged and the memory given back; otherwise the library is on the list its node type selects |
| Residents.MakeFor | mod/exec/resident.c:48-51 | MakeLibrary from the record's information and table: NULL exactly when init refuses or the allocation fails, otherwise a fresh library of the record's size and table |
| Residents.AddByType | mod/exec/resident.c:52-59 | the library is enqueued on liblist for NT_LIBRARY, on devlist for NT_DEVICE, and on neither otherwise |
| Residents.ResList.FindResident | mod/exec/resident.c:12-19 | NULL exactly when no node has the name; otherwise the record of the first node of that name in list order |
| Residents.ResList.InitCode | mod/exec/resident.c:64-79 | the records handed to InitResident are those of reslist at the level, in list order, and the memory and library lists stay well formed |
| Residents.ResList.CollectRes | mod/exec/resident.c:82-113 | reslist afterwards is the merge, in scan order, of every record the scan accepts between p and end |
| Residents.ResList.Advance | mod/exec/resident.c:90-111 | one position of the scan: reslist stays orderly, the scan moves forward, and merging what is accepted from there on still gives the list the whole scan gives |
| Residents.ScanDone | mod/exec/resident.c:86 | at the end of the range nothing is left to accept, so reslist is the merge of the whole scan |
| Residents.ResList.Visit | mod/exec/resident.c:97-111 | one accepted record is merged and the scan continues past its endskip |
| Residents.ResList.Accept | mod/exec/resident.c:97-110 | the list afterwards is Merge of the list before and the record |
| Residents.ResList.Fill | mod/exec/resident.c:107-110 | a node off the list takes the record's name and priority and is enqueued by priority |
| Residents.ResList.Insert | mod/exec/resident.c:109-110 | the node, pointing at the record, is enqueued by priority |
| Residents.ResList.Bind | mod/exec/resident.c:109 | setting the record of a node off the list leaves reslist's entries unchanged |
| Residents.ResList.Link | mod/exec/resident.c:110 | iEnqueue puts the node in front of the first node of lower priority |
| Residents.ResList.Unlink | mod/exec/resident.c:103 | iRemove takes off the node at its index; the other nodes keep their order |
| IntServers.IntServer.constructor | mod/exec/intserver-sp.c:56-65 | num empty lists, distinct and new, with every source disabled |
| IntServers.IntServer.AddIntServer | mod/exec/intserver-sp.c:18-28 | the node becomes NT_INTERRUPT and is enqueued by priority on the source's list; the other lists are unchanged, the source is enabled, and every source stays enabled exactly while its list has a server |
| IntServers.IntServer.Adopt | mod/exec/intserver-sp.c:22 | the node is tagged NT_INTERRUPT and belongs to its Interrupt |
| IntServers.IntServer.Attach | mod/exec/intserver-sp.c:25-26 | the node is enqueued by priority on the source's list and the source is enabled |
| IntServers.IntServer.Enqueue | mod/exec/intserver-sp.c:25 | iEnqueue on the source's list; the other lists are unchanged and stay node-disjoint |
| IntServers.IntServer.RemIntServer | mod/exec/intserver-sp.c:30-41 | the node is taken off its source's list, the others are unchanged, and the source is disabled exactly when its list is left empty |
| IntServers.IntServer.Dequeue | mod/exec/intserver-sp.c:36 | iRemove takes the node off the source's list; the other nodes keep their order |
| IntServers.IntServer.RunIntServers | mod/exec/intserver-sp.c:44-53 | every server on the source's list is called exactly once, in list order, with its own code and data |
| IntServers.RemoveUndoesEnqueue | mod/exec/intserver-sp.c:18-41 | removing a server just added gives back the list as it was before the add |
| Format.Cut | mod/exec/rawdofmt.c:202-205 | the string up to its NUL: a prefix with no NUL in it, followed by a NUL when it is shorter than the string |
| Format.CutAt | mod/exec/rawdofmt.c:202-205 | the scan for the first NUL stops exactly at the end of Cut |
| Format.Unsigned | mod/exec/rawdofmt.c:183-187 | the 32-bit unsigned reading of an argument: below 2^32 and equal to it modulo 2^32 |
| Format.Signed | mod/exec/rawdofmt.c:161-165 | the two's complement reading: between -2^31 and 2^31 - 1 and equal to the argument modulo 2^32 |
| Format.Magnitude | mod/exec/rawdofmt.c:166-170 | the unsigned value 'd' prints is the number or its negation, and not negative |
| Format.DigitsValue | mod/exec/rawdofmt.c:69-78 | the digits putul produces, read back in the base, give the value |
| Format.DigitsLower | mod/exec/rawdofmt.c:72 | every digit is one of the first base characters of "0123456789abcdef" |
| Format.DigitsLeading | mod/exec/rawdofmt.c:69-78 | the digits start with '0' exactly when the value is 0 |
| Format.DigitsLength | mod/exec/rawdofmt.c:69-78 | a value below base^n has at most n digits, and one of at least base^(n-1) has at least n |
| Format.Fill | mod/exec/rawdofmt.c:34-37 | n copies of the character, and none when n is not positive |
| Format.Pad | mod/exec/rawdofmt.c:89-99 | the field is max(width, length of body) long; with FLAG_LEFT the body comes first and spaces follow, otherwise the padding character comes first and the body ends the field |
| Format.NumberDenotes | mod/exec/rawdofmt.c:59-100 | without FLAG_LEFT a number is padding, then the sign, then digits that denote the value |
| Format.BufferOverflows | mod/exec/rawdofmt.c:67 | %+o of 0xffffffff needs 12 characters of buf, which holds 11 |
| Format.BufferFits | mod/exec/rawdofmt.c:67 | with 12 characters the sign and the digits of every unsigned long in base 8, 10 or 16 fit |
| Format.PointerDigits | mod/exec/rawdofmt.c:219-230 | %p prints exactly 8 hexadecimal digits, zero-padded, whatever width the format gives |
| Format.FlagsRun | mod/exec/rawdofmt.c:126-135 | every character the flag loop passes over is one of '-', '+', ' ' and '0' |
| Format.DigitsRun | mod/exec/rawdofmt.c:139-146 | every character the width loop passes over is a decimal digit |
| Format.PlainText | mod/exec/rawdofmt.c:115-122 | a format with no '%' before its NUL takes no argument and prints itself up to the NUL |
| Format.StopsAtNul | mod/exec/rawdofmt.c:109-241 | nothing after a NUL in the format is read: the format cut at the NUL gives the same pieces |
| Format.SpecAgree | mod/exec/rawdofmt.c:124-152 | a conversion specification before a NUL is read the same when the format ends at the NUL |
| Format.RightAdjust | mod/exec/rawdofmt.c:25-42 | without FLAG_LEFT, width padding characters ('0' with FLAG_ZERO) and 0 left over; with FLAG_LEFT, nothing and the whole width left over |
| Format.LeftAdjust | mod/exec/rawdofmt.c:45-57 | with FLAG_LEFT, width spaces; without it, nothing |
| Format.Encode | mod/exec/rawdofmt.c:69-78 | buf holds the digits of val least significant first: reversed they are Digits(val) |
| Format.PutSign | mod/exec/rawdofmt.c:80-86 | '-' for FLAG_MINUS, else '+' for FLAG_SIGN, else ' ' for FLAG_SPACE goes after the digits, so it is printed first |
| Format.Decode | mod/exec/rawdofmt.c:92-98 | buf[..p] is put from its last character to its first |
| Format.Padded | mod/exec/rawdofmt.c:88-99 | right_adjust, the body and left_adjust put together are the padded field |
| Format.PutUl | mod/exec/rawdofmt.c:59-100 | putul prints Number: the padded sign and digits, which NumberDenotes and DigitsValue tie back to the value |
| Format.PutStr | mod/exec/rawdofmt.c:197-217 | %s prints the string up to its NUL, padded to the width |
| Format.Convert | mod/exec/rawdofmt.c:155-240 | each conversion character prints what Emit says: the fallthrough gives base 16 for 'x' and 'X', 10 for 'u' and 8 for 'o' |
| Format.ScanFlags | mod/exec/rawdofmt.c:124-135 | the flag loop stops at the first non-flag character and sets the flags named in the run, in any order and repetition |
| Format.ScanWidth | mod/exec/rawdofmt.c:137-146 | the width loop stops at the first non-digit and gives the decimal value of the digits |
| Format.ScanSpec | mod/exec/rawdofmt.c:124-152 | flags, width, an optional 'l' and the conversion character are read as Spec says |
| Format.Step | mod/exec/rawdofmt.c:109-240 | one round of the loop puts the first piece's output and moves past it, or returns at NUL |
| Format.RawDoFmt | mod/exec/rawdofmt.c:102-242 | the output is the whole format rendered with its arguments, in order |
| Expansion.ExpansionBase.AddExpansionDriver | mod/expansion/init.c:16-22 | the driver is tagged NT_EXPANSION_DRIVER and appended to the driver list; the result is EXPANSION_OK |
| Expansion.ExpansionBase.SetExpansionRoot | mod/expansion/init.c:24-31 | the root device is tagged NT_EXPANSION_DEVICE, has no parent and has the given driver |
| Expansion.FindDriver | mod/expansion/init.c:42-60 | the driver loop returns FirstMatch: the first driver of the bus's type that the bus and, when it has ismatch, the driver accept |
| Expansion.FirstMatchIsFirst | mod/expansion/init.c:42-60 | FirstMatch is null exactly when no driver matches, and otherwise a matching driver with no match before it |
| Expansion.ExpansionBase.AddExpansionDev | mod/expansion/init.c:33-65 | the device is tagged, gets its parent and the first matching driver (or keeps its driver when none matches), and is appended to the parent's children |
| Expansion.Bus.Up | mod/expansion/init.c:70-82 | a failed bus is left alone; a healthy one ends as Raise says |
| Expansion.RaiseLatches | mod/expansion/init.c:73-82 | a healthy bus reaches maxlevel with EXPANSION_OK, or stops at the first level whose init is present and fails, with that init's code; every level before it succeeded or had no init |
| Expansion.RaiseInStages | mod/expansion/init.c:149-166 | raising to one level and then to a higher one is raising to the higher one at once, so the passes of iUpdateExpansion add up to one run |
| Expansion.Dev.Up | mod/expansion/init.c:98-134 | a failed device is left alone; a healthy one ends as DevRaise says; at most one lAllocMem, none when priv is set; added counts a bus gained from an init that succeeded |
| Expansion.DevRaiseLatches | mod/expansion/init.c:102-134 | a healthy device reaches maxlevel with EXPANSION_OK or stops at the failing level, with EXPANSION_NOT_ENOUGH_MEMORY and no priv when lAllocMem fails or the code of the failing init; priv is only allocated for a driver with priv_size and is never dropped; a bus, once there, stays, and a new one is what an init created |
| Expansion.UpBus | mod/expansion/init.c:67-93 | the bus ends as Raise says; no bus of the tree loses its children, a failed or finished bus is untouched and every level only grows up to maxlevel |
| Expansion.UpDev | mod/expansion/init.c:95-147 | the device ends as DevRaise says; the tree stays a tree; every device only progresses; a positive added means some device gained a bus, and added is positive when this device gained one from an init that succeeded |
| Expansion.UpChildren | mod/expansion/init.c:140-144 | updev over the children of a bus keeps the tree and the progress of every device |
| Expansion.ExpansionBase.Pass | mod/expansion/init.c:156-162 | one pass: upbus on the root's bus, then updev on the root; the devices without a bus only shrink, strictly when addbus is set, and a pass with addbus 0 leaves the root's bus raised |
| Expansion.ExpansionBase.Settle | mod/expansion/init.c:155-165 | the `goto again` loop ends, with the root device and, when it is healthy, its bus raised to the level |
| Expansion.ExpansionBase.UpdateExpansion | mod/expansion/init.c:149-168 | after levels 1 to EXPANSION_INIT_LEVELS the root device has run every level or failed, and so has its bus when the root is healthy; every bus and device only progressed |
| Expansion.GetDevFreq | mod/expansion/init.c:170-188 | the parent bus's get_freq answers; without a parent, an op table or get_freq the result is EXPANSION_NOT_IMPLEMENTED |
| Expansion.AddDevInt | mod/expansion/init.c:190-197 | the parent bus's add_int answers, or EXPANSION_NOT_IMPLEMENTED |
| Expansion.RemDevInt | mod/expansion/init.c:199-206 | the parent bus's rem_int answers, or EXPANSION_NOT_IMPLEMENTED |
| Ambapp.IdVendor | mod/ambapp/impl.c:59-61 | the vendor field is below 0x100 |
| Ambapp.IdDevice | mod/ambapp/impl.c:62-64 | the device field is below 0x1000 |
| Ambapp.IdVer | mod/ambapp/impl.c:65-67 | the version field is below 0x20 |
| Ambapp.IdIrq | mod/ambapp/impl.c:68-70 | the interrupt number is below 0x20 |
| Ambapp.BarType | mod/ambapp/impl.c:71-73 | the BAR type is below 0x10 |
| Ambapp.IdFields | mod/ambapp/impl.c:59-70 | the decoders give back the vendor, device and version an identification word was laid out from, and bits 11..10 ORed into the interrupt number |
| Ambapp.AhbMemFields | mod/ambapp/impl.c:94-98 | an AHB memory BAR decodes to its address and mask fields moved to bits 31..20 |
| Ambapp.AhbIoFields | mod/ambapp/impl.c:99-103 | an AHB I/O BAR decodes to its address field in bits 19..8 ORed into the area base, and its mask field in bits 19..8 (corrected decoding) |
| Ambapp.AhbIoMaskAsWritten | mod/ambapp/impl.c:103 | as written, an AHB I/O mask keeps only the low 8 bits of the mask field and picks up the BAR type; mask field 0xfff gives 0x000ff300 |
| Ambapp.AsWrittenOnlyIoMask | mod/ambapp/impl.c:94-109 | the decoding as written and the corrected one differ only in the mask of an I/O bank |
| Ambapp.ApbIoFields | mod/ambapp/impl.c:122-126 | an APB BAR decodes to its address field in bits 19..8 ORed into the APB base, and its mask field in bits 19..8 with the top 12 bits set |
| Ambapp.OtherBarsUnknown | mod/ambapp/impl.c:104-108 | a BAR of any other type decodes to an unknown bank with address and mask 0; an APB BAR is never an AHB bank and the reverse |
| Ambapp.AhbSlots | mod/ambapp/impl.c:175-182 | an I/O area holds 63 AHB slave records, each decoded from the eight words of its slot |
| Ambapp.ApbSlots | mod/ambapp/impl.c:136-147 | an APB base holds 16 slave records, each decoded from an identification word and a BAR |
| Ambapp.Listed | mod/ambapp/impl.c:229-245 | the entries before the first one with vendor 0 |
| Ambapp.IsMatchListed | mod/ambapp/impl.c:229-245 | a driver matches a device exactly when an entry before the table's terminator names its vendor and device |
| Ambapp.FirstReloadWins | mod/ambapp/impl.c:281-292 | a frequency once set is kept, a zero reload changes nothing, and a first reload below 4294 gives (reload + 1) MHz without wrap-around |
| Ambapp.ApbStepGrows | mod/ambapp/impl.c:142-171 | one APB slot adds at most one device, with a vendor, and tries at most one allocation |
| Ambapp.ApbScanAppends | mod/ambapp/impl.c:136-173 | scan_apb only appends devices with a vendor, tries at most one allocation per slot and keeps a frequency once set |
| Ambapp.ApbStepAddsFound | mod/ambapp/impl.c:149-171 | when allocation succeeds, a slot with a vendor adds its record and an empty slot adds nothing |
| Ambapp.ApbScanAddsFound | mod/ambapp/impl.c:136-173 | when every allocation succeeds, scan_apb registers exactly the records of the slots with a vendor, in slot order, with one allocation each |
| Ambapp.AhbStepGrows | mod/ambapp/impl.c:184-215 | one AHB slot, with the areas behind it, only appends devices with a vendor and keeps a frequency once set |
| Ambapp.AhbBehindGrows | mod/ambapp/impl.c:201-215 | following a bridge or scanning the APB controller's area only appends devices with a vendor |
| Ambapp.AhbScanAppends | mod/ambapp/impl.c:175-217 | scan_ahb only appends devices with a vendor, tries an allocation for each and keeps a frequency once set |
| Ambapp.AmbappBus.MaybeSetFreq | mod/ambapp/impl.c:281-292 | the frequency becomes SetFreq of the old frequency and the timer's reload word |
| Ambapp.AmbappBus.AddDev | mod/ambapp/impl.c:160-171 | an allocation is tried, and the record is appended when it succeeds |
| Ambapp.AmbappBus.ScanApb | mod/ambapp/impl.c:136-173 | the new bus state is ApbScan of the old one over the 16 slots of the APB base |
| Ambapp.AmbappBus.SlotApb | mod/ambapp/impl.c:145-171 | one slot: the state is ApbStep of the old one |
| Ambapp.AmbappBus.ScanAhb | mod/ambapp/impl.c:175-217 | the new bus state is AhbScan of the old one over the 63 slots of the I/O area |
| Ambapp.AmbappBus.SlotAhb | mod/ambapp/impl.c:184-215 | one slot: the state is AhbStep of the old one |
| Ambapp.AmbappBus.Behind | mod/ambapp/impl.c:201-215 | a bridge with a next area is followed, else the APB controller's area is scanned; the state is AhbBehind of the old one |
| Ambapp.AmbappBus.BusInit | mod/ambapp/impl.c:247-251 | the scan starts from the I/O area at 0xfff00000 and the result is EXPANSION_OK |
| SerialHw.TxFullBits | mod/serial/apbuart/impl.c:267-273 | with the FIFO only the TF bit decides whether the transmitter is full, without it only TE; a status of TF alone reads full and one of TE alone reads not full, with or without the FIFO |
| SerialHw.RxBurst | mod/serial/apbuart/impl.c:314-321 | one isr_rx call takes from 1 to 32 received bytes at most (the size of rxdata: 32 on APBUART and PL011, 16 on NS16550, 8 on nRF) |
| SerialHw.InitCtrlBits | mod/serial/apbuart/impl.c:231-246 | after inithw the receiver, its interrupt and the transmitter are on, the transmit interrupt is off, no other bit is set, and FL, LB and DB keep their old values exactly when FL was set |
| SerialHw.FiniCtrlBits | mod/serial/apbuart/impl.c:248-264 | after finihw no interrupt is enabled; with DB set every other bit is kept, and without it the word is 0 |
| SerialHw.RegIndex | mod/serial/ns16550/impl.c:99-107 | write_reg and read_reg touch one of the 8 registers |
| SerialHw.RegCodeFields | mod/serial/ns16550/impl.c:34-36 | a register code names the offset it was built from, and write_reg and read_reg accept it exactly when it carries the write or the read bit |
| SerialHw.RegisterMap | mod/serial/ns16550/impl.c:37-49 | each named register is the code of its offset with its access bits: RBR, IIR, LSR and MSR read-only, THR and FCR write-only, the others read-write |
| SerialHw.CauseOfBits | mod/serial/ns16550/impl.c:289-302 | an IIR value with NIP set ends the loop; otherwise a character timeout or data available calls isr_rx, an empty holding register calls isr_tx, and every other cause calls nothing |
| SerialHw.HandlersCalled | mod/serial/ns16550/impl.c:289-302 | every handler the loop calls is isr_rx or isr_tx, at most one per IIR read |
| SerialHw.HandlersStopAtNip | mod/serial/ns16550/impl.c:292-295 | no handler runs after an IIR read with NIP set |
| SerialHw.Isr | mod/serial/ns16550/impl.c:289-302 | the handlers called are exactly those of the IIR values up to the first with NIP set, in order |
| SerialBuf.Count | mod/serial/apbuart/impl.c:427-430 | the number of bytes in the ring is (w - r) mod 512, from 0 to 511 |
| SerialBuf.Ring | mod/serial/apbuart/impl.c:427-438 | the ring's contents, oldest first, are Count(r, w) bytes |
| SerialBuf.RingPush | mod/serial/apbuart/impl.c:368-371 | while the ring holds fewer than 511 bytes, storing at rx.w and moving w on (back to 0 at 512) appends the byte to the contents |
| SerialBuf.RingPop | mod/serial/apbuart/impl.c:433-436 | while the ring is not empty, the byte at rx.r is the oldest, and moving r on (back to 0 at 512) drops exactly it |
| SerialBuf.Put | mod/serial/apbuart/impl.c:335-337 | a request taking bytes keeps its length and its buffer size, stays within its length, and its actual only grows |
| SerialBuf.PutPlaces | mod/serial/apbuart/impl.c:335-337 | the request takes as many bytes as it still wants or as there are, the first ones, placed from actual on, and the rest of its buffer is untouched |
| SerialBuf.PutOver | mod/serial/apbuart/impl.c:335-337 | overwriting the data from actual on with the bytes, while the request has room, gives exactly what Put gives |
| SerialBuf.RxServeShape | mod/serial/apbuart/impl.c:328-356 | the second loop of isr_rx keeps every request in order, completes a prefix of rx.list, only adds bytes after those each request had, touches no request but the head of what is left, and leaves incomplete requests incomplete |
| SerialBuf.RxServeBytes | mod/serial/apbuart/impl.c:328-356 | the requests together take the first bytes received, in rx.list order, as many as they still want or as there are; the rest are left over, and only once rx.list is empty |
| SerialBuf.RxServeNone | mod/serial/apbuart/impl.c:322-324 | with no byte received, rx.list and its requests stay as they are |
| SerialBuf.ServeHead | mod/serial/apbuart/impl.c:329-355 | one turn: a head the bytes complete leaves the list and the loop goes on after it with the bytes left; otherwise the loop stops with the head as filled |
| SerialBuf.Stored | mod/serial/apbuart/impl.c:357-372 | the third loop of isr_rx never fills the ring to 512 bytes |
| SerialBuf.Stream | mod/serial/apbuart/impl.c:288-291 | the APBUART and PL011 write loop leaves the request well-formed and reads at most the status words given |
| SerialBuf.Burst | mod/serial/ns16550/impl.c:194-201 | the NS16550 burst leaves the request well-formed and reads at most the status words given |
| SerialBuf.One | mod/serial/nrf-uart/impl.c:182-187 | the nRF write leaves the request well-formed and reads at most the status words given |
| SerialBuf.Emit | mod/serial/apbuart/impl.c:288-291 | each chip's write loop leaves the request well-formed and reads at most the status words given |
| SerialBuf.StreamSends | mod/serial/apbuart/impl.c:288-291 | the bytes sent are the request's next ones in order, one per status word read, and nothing else of it changes; it stops short of the end only on a status read that says full |
| SerialBuf.StreamOn | mod/serial/apbuart/impl.c:288-291 | a status word that says ready moves the next byte of the request from the rest of the write loop to the bytes already sent |
| SerialBuf.BurstTxLast | mod/serial/ns16550/impl.c:194-205 | a last pass on a chip other than nRF: the burst sends the request's next bytes (at most 16, and only after a status read, on NS16550), and isr_tx ends with the head off tx.list when complete |
| SerialBuf.TxShapeLast | mod/serial/apbuart/impl.c:292-303 | a last pass that moves the head on keeps the queue in order: the head done when complete, the rest kept |
| SerialBuf.TxShapeNone | mod/serial/apbuart/impl.c:281-285 | a pass that does nothing keeps the queue in order, with nothing done |
| SerialBuf.EmitSends | mod/serial/ns16550/impl.c:194-201 | every chip's write loop sends the request's next bytes in order and changes nothing else; NS16550 sends at most 16, and only after a status read that says ready; nRF sends one exactly when TXDRDY is set |
| SerialBuf.IsrTxTurn | mod/serial/apbuart/impl.c:279-303 | isr_tx is one pass on the head of tx.list, the head off the list when complete, and, when the status read says ready, the rest of the run on the status words left |
| SerialBuf.IsrTxSends | mod/serial/apbuart/impl.c:275-305 | isr_tx keeps the requests in order, completes a prefix of tx.list, and sends exactly the next unsent bytes of the queue in order; the transmit interrupt goes off only with tx.list empty (on nRF exactly then); NS16550 sends at most 16 bytes per status word |
| SerialBuf.UnsentAppend | mod/serial/apbuart/impl.c:407-408 | a write queued at the tail of tx.list puts its unsent bytes after those of the requests already there |
| SerialBuf.CmdWriteSends | mod/serial/apbuart/impl.c:386-413 | cmd_write sends the first bytes of the request, in order, and the rest stay unsent; the request is queued exactly when bytes are left, and then its bytes go after those already queued; nothing is sent while tx.list is not empty; NS16550 sends at most 16 bytes and nRF at most one |
| Serial.Unit.constructor | mod/serial/apbuart/impl.c:575-596 | a new unit has an empty ring, empty rx.list and tx.list, the transmit interrupt off, and on APBUART fifo_available is CTRL_FA of the control word read |
| Serial.Unit.BeginIO | mod/serial/apbuart/impl.c:465-509 | the request becomes NT_MESSAGE; CMD_WRITE is cmd_write, CMD_READ cmd_read, SDCMD_QUERY gives the ring's count, SDCMD_GETPARAMS (APBUART) the baud rate, and any other command IOERR_NOCMD with nothing changed; a request not queued is replied to exactly when IOF_QUICK is clear |
| Serial.Unit.AbortIO | mod/serial/apbuart/impl.c:194-229 | a CMD_WRITE or CMD_READ request still NT_MESSAGE is taken off its list, gets IOERR_ABORTED and is replied to unless IOF_QUICK is set; any other request, and the lists, are left alone |
| Serial.Unit.CmdRead | mod/serial/apbuart/impl.c:415-455 | the request takes the oldest bytes of the ring, as many as it wants or as there are, and they leave the ring; it is queued at the end of rx.list, with IOF_QUICK cleared, exactly when it is still incomplete |
| Serial.Unit.CmdWrite | mod/serial/apbuart/impl.c:386-413 | the request is as SerialBuf.CmdWrite leaves it; a queued one goes to the end of tx.list with IOF_QUICK cleared and turns the transmit interrupt on; one not queued leaves tx.list and the interrupt as they were |
| Serial.Unit.Remove | mod/serial/apbuart/impl.c:200-203 | lRemove takes the request off the list wherever it is, and the other requests keep their order |
| Serial.Unit.Enqueue | mod/serial/apbuart/impl.c:447-448 | IOF_QUICK is cleared and the request goes to the end of the list, which stays a list of waiting requests |
| Serial.Unit.Take | mod/serial/apbuart/impl.c:432-438 | the loop moves the ring's oldest bytes into the request, from actual 0, and the ring keeps the rest; it stops with the ring empty unless the request is complete |
| Serial.Unit.Drain | mod/serial/apbuart/impl.c:432-438 | the loop of cmd_read: as many bytes as the request has room for or the ring holds, oldest first, overwrite its data from the start and leave the ring, which is empty unless the request filled up |
| Serial.Unit.TakeByte | mod/serial/apbuart/impl.c:433-437 | one turn: the oldest byte goes to the request's next place and the ring holds one byte fewer |
| Serial.Unit.ReadRing | mod/serial/apbuart/impl.c:425-455 | a non-empty request takes the ring's oldest bytes as Put gives, and they leave the ring; it is queued at the end of rx.list with IOF_QUICK cleared exactly when it is still short |
| Serial.Unit.Pop | mod/serial/apbuart/impl.c:433-436 | the oldest byte leaves the ring, which holds one byte fewer |
| Serial.Unit.Query | mod/serial/apbuart/impl.c:481-491 | actual is the number of bytes in the ring, below 512 |
| Serial.Unit.Receive | mod/serial/apbuart/impl.c:317-321 | the first loop of isr_rx takes the bytes the receiver holds, in order, up to the size of rxdata |
| Serial.Unit.Interrupt | mod/serial/apbuart/impl.c:379-384 | isr_rx then isr_tx: rx.list, the completed reads and the ring are as RxServe and Stored give, then tx.list, the completed writes, the bytes sent and the transmit interrupt as IsrTx gives |
| Serial.Unit.RxAll | mod/serial/apbuart/impl.c:309-377 | isr_rx as IsrRx states it, with tx.list and its requests untouched and no completed read on tx.list |
| Serial.Unit.TxAll | mod/serial/apbuart/impl.c:275-305 | isr_tx as Transmit states it, with rx.list, its requests and the reads just completed untouched |
| Serial.Unit.IsrRx | mod/serial/apbuart/impl.c:309-377 | the requests on rx.list take the bytes received as RxServe gives, the completed ones leave it as NT_FREEMSG and are returned in order for lReplyMsg, and the bytes left go to the ring as Stored gives |
| Serial.Unit.Deliver | mod/serial/apbuart/impl.c:326-372 | the second and third loops of isr_rx on the bytes received, as RxServe and Stored give |
| Serial.Unit.Keep | mod/serial/apbuart/impl.c:357-372 | the third loop stores the bytes left as Stored gives and leaves every request alone |
| Serial.Unit.ServeAll | mod/serial/apbuart/impl.c:326-356 | the second loop over all bytes received, as RxServe gives; bytes are left over only with rx.list empty |
| Serial.Unit.NoBytes | mod/serial/apbuart/impl.c:322-324 | with no byte received, isr_rx changes neither rx.list nor the ring |
| Serial.Unit.Serve | mod/serial/apbuart/impl.c:328-356 | the second loop from a position in rxdata: rx.list, the completed requests and the bytes left are as RxServe gives, and the completed ones are NT_FREEMSG |
| Serial.Unit.ServeHead | mod/serial/apbuart/impl.c:329-355 | the loop with rx.list not empty, as RxServe gives |
| Serial.Unit.ServeRest | mod/serial/apbuart/impl.c:338-352 | after a completed head leaves, the loop goes on with the rest of the bytes, and the head comes first among the completed requests |
| Serial.Unit.ServeOne | mod/serial/apbuart/impl.c:329-355 | one turn, as SerialBuf.ServeHead states it: a completed head leaves rx.list as NT_FREEMSG and the loop goes on; otherwise rx.list keeps it and the loop stops |
| Serial.Unit.Fetch | mod/serial/apbuart/impl.c:334-340 | the head takes bytes as Put gives, and leaves rx.list as NT_FREEMSG exactly when complete |
| Serial.Unit.Fill | mod/serial/apbuart/impl.c:335-337 | the inner loop places bytes into the request as Put gives |
| Serial.Unit.Overlay | mod/serial/apbuart/impl.c:335-337 | the received bytes go to the request's data from actual on, as many as fit and as there are; the rest of its data is untouched |
| Serial.Unit.Store | mod/serial/apbuart/impl.c:357-372 | the ring becomes Stored of the bytes left: they are appended while the ring holds fewer than 511, and the rest are dropped |
| Serial.Unit.Push | mod/serial/apbuart/impl.c:368-371 | one byte is appended to the ring |
| Serial.Unit.Transmit | mod/serial/apbuart/impl.c:275-305 | tx.list, the completed requests (NT_FREEMSG, returned in order for lReplyMsg), the bytes sent and the transmit interrupt are as IsrTx gives |
| Serial.Unit.TxHead | mod/serial/apbuart/impl.c:279-303 | the run of isr_tx with tx.list not empty, as IsrTx gives |
| Serial.Unit.TxRest | mod/serial/apbuart/impl.c:292-303 | after a completed head leaves tx.list, the run goes on with the status words left, and the head comes first among the completed requests |
| Serial.Unit.TxOne | mod/serial/apbuart/impl.c:279-303 | one pass, as IsrTxTurn states it: a completed head leaves tx.list as NT_FREEMSG, and the run goes on only when the pass says so |
| Serial.Unit.TxPass | mod/serial/apbuart/impl.c:287-299 | the head sends as TxTurn gives and leaves tx.list as NT_FREEMSG exactly when complete |
| Serial.Unit.Settle | mod/serial/apbuart/impl.c:292-295 | a complete head leaves tx.list as NT_FREEMSG and the other requests keep their order and stay waiting; an incomplete one stays at the head |
| Serial.Unit.Turn | mod/serial/nrf-uart/impl.c:182-187 | the pass's bytes go out as TxTurn gives: nRF tests TXDRDY before sending, the others read the status after the burst |
| Serial.Unit.Send | mod/serial/apbuart/impl.c:288-291 | the chip's write loop, as Emit gives |
| Serial.Unit.StreamOut | mod/serial/pl011/impl.c:206-209 | the APBUART and PL011 write loop, as Stream gives |
| Serial.Unit.Streamed | mod/serial/pl011/impl.c:206-209 | the write loop on the request's values sends and reads as Stream gives |
| Serial.Unit.BurstOut | mod/serial/ns16550/impl.c:195-201 | the NS16550 burst, as Burst gives: up to 16 bytes when the status read says the holding register is empty |
| SerialDev.NegativeUnitOpens | mod/serial/ns16550/impl.c:457 | as written, a single-unit driver admits every unit number up to 0, so -1 and 0 both open; the intended test admits 0 alone |
| SerialDev.Device.constructor | mod/serial/ns16550/impl.c:109-124 | a new device has an empty unit list and the unit count it was given |
| SerialDev.Device.FindAdev | mod/serial/apbuart/impl.c:526-537 | a core is found exactly for a unit number from 0 to the number of cores minus 1, and it is the one at that position |
| SerialDev.Device.FindUnit | mod/serial/apbuart/impl.c:539-547 | NULL exactly when no open unit has the number; otherwise an open unit with that number |
| SerialDev.Device.Open | mod/serial/apbuart/impl.c:549-598 | an unknown unit number gives IOERR_INVALIDUNIT, an open one IOERR_UNITBUSY, a failed allocation IOERR_OPENFAIL, each with the unit list unchanged; otherwise a new cleared unit goes to the end of the list and, on APBUART, inithw's control word is written |
| SerialDev.Device.Close | mod/serial/apbuart/impl.c:511-524 | the unit leaves the list, the others keep their order, and on APBUART finihw's control word is written |
| SerialDev.Device.SingleUart | mod/serial/pl011/impl.c:455 | with the corrected unit test, a single-unit driver has at most one open unit on its UART |

## Left out

- The node links (`succ`/`pred`, the head/tail sentinels) are not modelled: a list is a sequence of distinct nodes.
- The headers' byte contents are not modelled: no bytes are stored. MEMF_CLEAR zeroing is the `cleared` result of AllocMem.
- The memory lock (`memlock`) and other mutex calls: each locked section is one atomic step.
- The dead-end alert of FreeMem is the `deadend` result; the alert itself is not modelled.
- Mem.MemHeader.Deallocate requires the block to overlap no free run and to lie inside the header. The C code does not check this and corrupts the list otherwise.
- Memory.MemoryList.FreeMem requires a pointer inside a header to be a block in use. Freeing anything else corrupts the free list in the C code.
- port_prepstack (the architecture's stack frame set-up) is not part of this model; Task.Prepare starts from the stack bounds it leaves.
- lReschedule, lSwitch and the task lock: each locked section is one atomic step, and the model stops where the C code switches tasks.
- Tasks.Kernel.WaitStep is one pass of the iWait loop; the repetition after lSwitch is left to the caller, as is the KASSERT that the task is ready again.
- Tasks.SearchFree derives the bit from signum instead of shifting `target` alongside it; the two stay equal in the C loop.
- Tasks.Task.AllocSignal requires reqnum <= 31: the C shift `1U << reqnum` is undefined above that.
- Tasks.Kernel.ProcessRemoving takes the task found in the removing slot; the slot itself is `Scheduling.CPU.removing`.
- Tasks.Dispose returns the FreeEntry and ReplyMsg requests instead of performing them.
- Mutexes: `nest` is unbounded; the C `int` counter would overflow after 2^31 - 1 nested obtains, which the KASSERT does not catch.
- Mutexes.Mutex.ObtainMut stops where the queued caller blocks; that it resumes as owner with nest 0 follows from Release's contract rather than from a second wait pass.
- Mutexes.Mutex.ObtainMut requires the caller not to wait for the mutex already; a running task cannot be in the queue.
- Ports: the port lock (`inv.lock`) is not modelled; each locked section is one atomic step.
- Ports.PutIt requires the port's task to be on a kernel list; the C code notes that it may have disappeared, which the model does not capture.
- Ports.WaitPortStep and Ports.WaitMsgStep are one pass of their loops; the repetition after the caller wakes is left to the caller.
- Ports.WaitMsgStep requires a replied message to be on its reply port, the invariant the port lock keeps in the C code.
- Libraries: the liblock and devlock mutexes are not modelled; each locked section is one atomic step, and what other tasks do while Open runs unlocked is not captured.
- Libraries: the Open, Close, Expunge and init entries a library supplies are parameters (openok, seg, initok); the model does not capture an Open entry that returns a library other than the one opened.
- Libraries.MakeLibrary requires the rounded table size plus possize to fit in an `int`, as `allocated_size` is an `int`; the C code overflows otherwise.
- Libraries.MakeLibrary: the table is copied by iMakeFunctions with iMemMove; the model records the copied table as the sequence `ops` instead of bytes below the base.
- Libraries.SetFunction requires negoffset to name an entry of the table; the C code writes wherever the offset points.
- Libraries: opencount is unbounded; the C `short` would wrap after 32767 openers.
- Devices.OpenDevice: the unit number is passed to the device's Open entry only, which is not part of this model.
- Devices: iAbortIO only calls the device's AbortIO entry, which belongs to each driver; it has no exec-side state to model.
- Devices.BeginIO describes a device's BeginIO by its outcome (Begun); the command dispatch itself belongs to each driver.
- Devices.WaitIOStep and Devices.DoIO are one pass of the iWaitMsg loop; the repetition after the caller wakes is left to the caller.
- Creation: the sizes of Task, MsgPort and IORequest (`sizeof`) and lib->minstack are parameters, as the structure layouts are not part of this model.
- Creation.CreateTask: the task's fields are stated by LayTask and NewTask; CreateTask itself states the memory it allocates and the ready list and cleanup list on failure.
- Creation.CreateMsgPort: the port's interrupt lock (`lInitIntLock`) is not modelled; each locked section is one atomic step.
- Creation: lFindTask is the caller `me`; the task running the call is a parameter.
- Scheduling: the CPU masks `allmask` and `assmask` are sets of CPU numbers; the requirement that every number is below 32 (so `1U << id` is defined) is part of `Online`.
- Scheduling: `port_send_ipi` is recorded as the CPU number in `ipis`, and `port_get_cpu` is the parameter `local`; the IPI handler is not modelled.
- Scheduling: the C code re-enqueues each kept heir inside the second loop and each handed-out task inside the third; the model makes the same enqueues in the same order after the loops (PutBack). Under the task lock nothing reads taskready in between, so taskready ends the same.
- Scheduling: the third loop of schedule is modelled as Pick (which CPUs it serves) followed by Apply (the setheir calls); the same CPUs get the same tasks in the same order.
- Scheduling: context switching (port_switch_tasks, iReschedule, iSwitch, task_entry) and CPU start-up are not modelled; SwitchPass stops at the switch and resumes with process_removing.
- Scheduling.CheckStack: port_getstack is the parameter sp.
- Scheduling.SwitchAway: check_canaries and checkstack, which the loop runs first, are modelled separately (Tasks.CheckCanaries, CheckStack).
- Residents: RESIDENT_ALIGN is ALIGNOF(Resident) on the 32-bit targets (4); a 64-bit target would step by 8.
- Residents: the init functions of the records are foreign code. A direct record's init is its return value `fret`, an automatic record's is `initok`; what they do to the library or to memory is not captured.
- Residents.ResList.Accept: collectres does not check iAllocMem's result for NULL; the model allocates the node without failing. The node type of a new ResidentNode is left uninitialised by the C code and is NT_UNKNOWN in the model.
- Residents.Scanned requires each accepted record's endskip to lie beyond it (`Proper`); the C loop would not advance otherwise.
- Residents: the `info` kprintf output is not modelled.
- Residents.DirectInit: the posdata block allocated before a failing init function is not given back; the contract states this rather than hiding it.
- Residents.ResList.InitCode requires every record at the level to be `Initable`: possize fits an `int` and an automatic record's table and sizes are what MakeLibrary lays out.
- IntServers: interrupt masking (port_disable_interrupts and port_enable_interrupts) is not modelled; each of iAddIntServer and iRemIntServer is one atomic step.
- IntServers.IntServer.constructor: the iAllocMem of the IntList array and its KASSERT are not modelled; the lists are allocated by Dafny, and num is a `nat`.
- IntServers.IntServer.RemIntServer requires the node to be on the list of intnum; the C code removes it from whatever list holds it and then tests intnum's list.
- IntServers.IntServer.RunIntServers: the handlers are foreign code; the model records the calls; a handler that changes the list it runs from is not modelled.
- Format: the `put` callback and its `arg` are the returned string; `lib` is not used by the C code.
- Format.RawDoFmt requires the arguments to match the conversions (`Fits`), since va_arg is undefined otherwise; a missing or mistyped argument is not modelled.
- Format: the target is 32-bit, so int and long, and unsigned int and unsigned long, are read alike and FLAG_LONG changes nothing; a 64-bit target reads 64-bit longs for `l`.
- Format.ScanWidth: the width is unbounded; the C `int` width overflows for widths of more than ten digits.
- Format.Magnitude: negating LONG_MIN is undefined in C; the model prints 2147483648, which is what two's complement negation into an unsigned long gives.
- Format: format characters above 127 are sign-extended into the C `int c` before put; the model passes characters unchanged.
- Format.PutUl uses the corrected 12-character buffer (see Findings); BufferOverflows states the 11-character buffer as written.
- Expansion: the entries of the driver and bus op tables (init, ismatch, get_freq, add_int, rem_int) are foreign code; what they return is a parameter, and what they do besides is not captured except for the bus a device's init creates (`spawn`).
- Expansion: the expansion lock (`exp->lock`) is not modelled; each locked section is one atomic step.
- Expansion: the alerts (`lAlert`) that a failing init or allocation raises are not modelled.
- Expansion.GetDevFreq: the `hz` out-parameter is not modelled; `answer` is get_freq's return code.
- Expansion.UpBus, Expansion.UpDev and Expansion.ExpansionBase.UpdateExpansion require the devices and buses to form a finite tree (`Tree`), and a bus an init creates to be one of it (`Spawns`); the C walks do not end on a cycle.
- Expansion.Dev.Up: an init that replaces a bus the device already has is not modelled; the old bus stays.
- Expansion.ExpansionBase.AddExpansionDev: the parent's ismatch is called without checking that the parent has an op table; the model takes its answer as `busMatch`.
- Expansion.ExpansionBase.UpdateExpansion states the root device and its bus; that every healthy device below reaches the last level is not stated.
- Expansion: iExpungeBase only returns NULL and is not modelled.
- Ambapp.AhbScan: the bridge recursion is bounded by `fuel`, the number of bridges a scan may still follow; the C recursion is unbounded and does not end on a cycle of bridges.
- Ambapp: memory is the function `mem`; the scan only reads it, and each volatile read of the same word gives the same value.
- Ambapp: the alert raised when lAllocMem fails is not modelled; whether each allocation succeeds is `allocOk`.
- Ambapp: lAddExpansionDev's insertion into the device tree is Expansion.ExpansionBase.AddExpansionDev; here the records handed to it are the sequence `devs`.
- Ambapp: bus_add_int and bus_rem_int hand the interrupt to lAddIntServer/lRemIntServer at line irq + intnum and answer EXPANSION_NOT_IMPLEMENTED, bus_enable_int only answers it, and bus_get_freq copies `hz`; they are not modelled.
- Ambapp: ambapp_init0 and init (filling the op tables, lOpenLibrary, registering the root driver) are not modelled.
- Ambapp.IsMatch: the C loop reads past the end of a table that has no terminator; the model stops at the end of the sequence.
- Ambapp: the AHB master records and the `type` field of `struct grlib_dev` are not modelled; the scans never read them.
- Ambapp.DecodeAhb uses the corrected AHB I/O mask (see Findings); AhbBarAsWritten is the decoding as written.
- The model fixes a 32-bit target: pointers and `size_t` are 4 bytes, so a memory header unit (HSIZE) is 8 bytes and `Mem.WORD` is 2^32; a 64-bit target would change these constants.
- Tasks.Kernel.CleanupPass is one pass of the cleanup task's endless loop; the repetition is left to the caller, and the freenode requests are returned instead of performed (Tasks.Dispose).
- Serial: the locks (rx.lock, tx.lock and the device's unitlock) and interrupt masking are not modelled; each locked section is one atomic step, so an AbortIO or cmd_read that runs while isr_rx has released rx.lock to reply is not captured.
- Serial: the hardware is seen through what the drivers read. The bytes the receiver holds are `waiting`, and the status words a transmit loop reads are `ans`, in read order; register writes other than the transmitted bytes and the APBUART control word are not modelled.
- Serial: lReplyMsg is not performed; a method returns the requests it replies to (`reply`, `replies`), and Ports.ReplyMsg models the reply itself.
- Serial: an IOExtSer is flattened to the fields the drivers use (command, flags, error, node type, actual, length, data, baud); length and actual are `nat`, and the C `& 0xff` masks on received and sent bytes are implied by bytes being `bv8`.
- Serial: the loops of isr_rx and isr_tx are modelled by recursion over rx.list and tx.list (Serve, Transmit), with the inner byte loops as `while` loops (Fill, Take, Store, StreamOut, BurstOut).
- Serial.Unit.Interrupt requires a chip other than NS16550: the NS16550 isr chooses handlers from its IIR reads, which SerialHw.Isr models; the handler calls themselves are IsrRx and Transmit.
- Serial.Unit.BeginIO: getbaud asks the expansion library for the bus frequency and reads the scaler register; its result is the parameter `baud`.
- Serial.Unit.AbortIO requires a CMD_WRITE or CMD_READ request that is still NT_MESSAGE to be on its list, which the C code keeps under the list lock.
- Serial: the finihw busy-wait for the transmitter to drain, and inithw's register writes on NS16550, PL011 and nRF, are not modelled.
- SerialDev: interrupt registration (lAddDevInt, lAddIntServer, lRemDevInt) and lFreeMem of a closed unit are not modelled; lAllocMem of a unit is the parameter `allocOk`.
- SerialDev: the expansion driver's unit list that findadev walks is its length `nadevs`; the AmbappDev found is not kept.
- SerialDev.Device.Open uses the corrected unit number test on NS16550, PL011 and nRF (see Findings); NegativeUnitOpens states the test as written.
- Serial and SerialDev: the `dbg` output is not modelled.

## Findings

| source | as written | input that shows it | evidently intended | confidence | as-written member | corrected member |
|---|---|---|---|---|---|---|
| mod/exec/mem.c:43 | `(numbytes + sizeof (Header) - 1) / sizeof (Header)` is computed in `size_t` and wraps | numbytes = 2^32 - 1 gives 0 units, so iAllocate would hand out (or unlink) a zero-unit run | the least number of units covering numbytes, or a failed allocation | high (not executed) | Mem.NUnitsWrapsToZero | Mem.NUnitsIsLeastCover |
| mod/exec/mem.c:228 | `numbytes += sizeof *p` wraps in `size_t` | numbytes = 2^32 - 8 becomes 0, so AllocVec returns a one-unit block and writes the size word over it | AllocVec fails when the size word does not fit | high (not executed) | Memory.VecBytesWraps | Memory.VecBlockHolds |
| mod/exec/lib.c:37 | `l->allocatedsize = allocated_size` stores an `int` in the `short` field, and expungelib hands that short back to lFreeMem as a `size_t` | opsize 8 and possize 32767: a 32775-byte block is freed as 2^32 - 32761 bytes | allocatedsize holds the whole block size, so expunge frees what was allocated | medium (not executed) | Libraries.ExpungeSizeWraps | Libraries.MakeLibrary |
| mod/exec/rawdofmt.c:67 | `char buf[sizeof (union charlens) + 1]` holds 11 characters on a 32-bit target, and putul stores every digit and then the sign in it | `%+o` (or `% o`) of 0xffffffff: 11 octal digits and the sign are 12 characters, one past the end of buf | room for every octal digit of an unsigned long and a sign, 12 characters | high (not executed) | Format.BufferOverflows | Format.BufferFits |
| mod/ambapp/impl.c:103 | `gdev->bar[i].mask = bar << 8 & 0x000fff00` for an AHB I/O bank | a BAR with mask field 0xfff and type 3 decodes to mask 0x000ff300 | the mask field (bits 15..4) moved to bits 19..8, as decode_apb does with `bar << 4`: 0x000fff00 | medium (not executed) | Ambapp.AhbIoMaskAsWritten | Ambapp.AhbIoFields |
| mod/serial/ns16550/impl.c:457 | `if (d->nunits <= unitnum)` is the only test of the unit number; pl011/impl.c:455 and nrf-uart/impl.c:431 are the same | unit number -1 with nunits 1 passes, so a second unit opens on the one UART beside unit 0 | a unit number from 0 to nunits - 1, so a single-unit driver has one unit | medium (not executed) | SerialDev.NegativeUnitOpens | SerialDev.Device.SingleUart |
