/**
 * The constructors of exec (mod/exec/createtask.c): a task with its stack,
 * a message port and an I/O request, each made in memory from the
 * allocator, and the destructors that give that memory back.
 *
 * The structures are classes; the block an object is made in is the
 * address returned next to it.  The size of each structure (sizeof) is a
 * parameter, and lib->minstack too.
 */
module Creation {
  import opened Wrappers
  import opened Lists
  import Mem
  import Memory
  import opened Tasks
  import opened Ports
  import Libraries
  import opened Devices

  /** The nodes a caller hands over to a new task's cleanlist: none for NULL. */
  function Pending(cleanup: List?): seq<Node>
    reads cleanup
  {
    if cleanup == null then [] else cleanup.nodes
  }

  /** The nodes handed over stay as they were while the list's node sequence does. */
  twostate lemma {:induction false} PendingKept(cleanup: List?)
    requires cleanup != null ==> unchanged(cleanup`nodes)
    ensures Pending(cleanup) == old(Pending(cleanup))
  {
  }

  /** A node's clean-up stays as it was while its type does. */
  twostate lemma {:induction false} FreeNodeKept(n: Node)
    requires unchanged(n`ntype)
    ensures FreeNode(n) == old(FreeNode(n))
  {
  }

  /** The stack size iCreateTask allocates: at least lib->minstack. */
  function StackSize(stacksize: Mem.size_t, minstack: Mem.size_t): (r: Mem.size_t)
    ensures r >= minstack && r >= stacksize && (r == stacksize || r == minstack)
  {
    if stacksize < minstack then minstack else stacksize
  }

  /**
   * The stack bounds iCreateTask records, ptr and (char *) ptr + size
   * taken modulo 2^32, lie size bytes apart modulo 2^32, and exactly
   * size bytes apart when the block does not wrap.
   */
  lemma {:induction false} StackSpan(ptr: int, size: Mem.size_t)
    ensures ((ptr + size) % Mem.WORD - ptr % Mem.WORD) % Mem.WORD == size
    ensures ptr % Mem.WORD + size < Mem.WORD ==> (ptr + size) % Mem.WORD - ptr % Mem.WORD == size
  {
  }

  /**
   * The fields iCreateTask fills in the cleared task: what it was given
   * (Given), the stack bounds lower and upper, and a cleanlist
   * holding a MemList node, whose clean-up is iFreeEntry, followed by the
   * caller's cleanup nodes in order, which leave the caller's list.
   */
  method NewTask(name: Option<string>, priority: int, init: int, user: int, cleanup: List?, lower: Mem.size_t, upper: Mem.size_t)
    returns (task: Task)
    requires cleanup != null ==> cleanup.Valid()
    modifies cleanup
    ensures fresh(task) && Given(task, name, priority, init, user) && task.state == TS_INVALID && task.trapcode == 0
    ensures task.splower == lower && task.spupper == upper && task.cannum == 0
    ensures |task.cleanlist| >= 1 && FreeNode(task.cleanlist[0]) == [FreeEntry(task.cleanlist[0])]
    ensures task.cleanlist[1..] == old(Pending(cleanup)) && Pending(cleanup) == []
  {
    var mlnode := new Node(None, NT_MEMLIST, 0);
    task := new Task();
    task.user := user;
    task.splower := lower;
    task.spupper := upper;
    task.pri := Mem.Short(priority);
    task.ntype := NT_TASK;
    task.name := name;
    task.init := init;
    task.cleanlist := [mlnode];
    if cleanup != null {
      Drain(task, cleanup);
    }
  }

  /**
   * The loop of iCreateTask that moves the caller's cleanup nodes, head
   * first, to the tail of the task's cleanlist: their order is kept and
   * the caller's list ends empty.
   */
  method Drain(task: Task, cleanup: List)
    requires cleanup.Valid()
    modifies task`cleanlist, cleanup
    ensures cleanup.Valid() && cleanup.nodes == []
    ensures task.cleanlist == old(task.cleanlist) + old(cleanup.nodes)
  {
    while true
      invariant cleanup.Valid()
      invariant task.cleanlist + cleanup.nodes == old(task.cleanlist) + old(cleanup.nodes)
      decreases |cleanup.nodes|
    {
      var node := cleanup.RemHead();
      if node == null {
        break;
      }
      task.cleanlist := task.cleanlist + [node];
    }
  }

  /**
   * iCreateTask: the task (tasksize bytes, cleared) and its stack come
   * from one iAllocEntry; without them the result is NULL and every free
   * count and the caller's cleanup list are as they were.  Otherwise the
   * MemList ml holds both blocks (entries), the task is laid out in them
   * by LayTask, and the memory is given back by freeing ml's entries.
   */
  method CreateTask(k: Kernel, mem: Memory.MemoryList, name: Option<string>, priority: int, init: int, user: int,
                    cleanup: List?, stacksize: Mem.size_t, minstack: Mem.size_t, tasksize: Mem.size_t, words: array<int>)
    returns (task: Task?, ml: int, entries: seq<Memory.MemEntry>)
    requires k.Valid() && mem.Valid() && (cleanup != null ==> cleanup.Valid())
    requires words.Length == Mem.WORD / 4
    modifies mem`regions, mem.headers, k`taskready, words, cleanup
    ensures k.Valid() && mem.Valid() && mem.headers == old(mem.headers)
    ensures task == null <==> ml == Memory.NULL
    ensures task == null ==>
      && Memory.Returned(old(mem.regions), mem.regions, []) && k.taskready == old(k.taskready)
      && Pending(cleanup) == old(Pending(cleanup))
    ensures task != null ==>
      && |entries| == 2 && entries[0].size == tasksize && entries[1].size == StackSize(stacksize, minstack)
      && Owns(old(mem.regions), mem.regions, ml, entries)
      && fresh(task) && Given(task, name, priority, init, user) && task.state == TS_READY
      && |task.cleanlist| >= 1 && FreeNode(task.cleanlist[0]) == [FreeEntry(task.cleanlist[0])]
      && task.cleanlist[1..] == old(Pending(cleanup)) && Pending(cleanup) == []
      && k.taskready == InsertAt(old(k.taskready), EnqueuePos(old(TaskPris(k.taskready)), task.pri), task)
  {
    var size := StackSize(stacksize, minstack);
    var reqs := [Memory.MemRequest(Libraries.ANY_CLEAR, tasksize), Memory.MemRequest(Mem.MEMF_ANY, size)];
    ml, entries := mem.AllocEntry(reqs, 2);
    if ml == Memory.NULL {
      return null, ml, entries;
    }
    assert TaskPris(k.taskready) == old(TaskPris(k.taskready));
    task := Launch(k, mem, name, priority, init, user, cleanup, entries[1].ptr, size, words);
  }

  /** LayTask on a task whose memory is allocated: the allocator stays well-formed, as it was. */
  method Launch(k: Kernel, mem: Memory.MemoryList, name: Option<string>, priority: int, init: int, user: int,
                cleanup: List?, stack: int, size: Mem.size_t, words: array<int>)
    returns (task: Task)
    requires k.Valid() && mem.Valid() && (cleanup != null ==> cleanup.Valid())
    requires words.Length == Mem.WORD / 4
    modifies k`taskready, words, cleanup
    ensures k.Valid() && mem.Valid()
    ensures fresh(task) && Given(task, name, priority, init, user) && task.state == TS_READY
    ensures |task.cleanlist| >= 1 && FreeNode(task.cleanlist[0]) == [FreeEntry(task.cleanlist[0])]
    ensures task.cleanlist[1..] == old(Pending(cleanup)) && Pending(cleanup) == []
    ensures k.taskready == InsertAt(old(k.taskready), EnqueuePos(old(TaskPris(k.taskready)), task.pri), task)
  {
    label Allocated:
    task := LayTask(k, name, priority, init, user, cleanup, stack, size, words);
    Memory.ValidFramed@Allocated(mem);
  }

  /**
   * iCreateTask once its memory is allocated, with the stack block
   * [stack, stack + size): the task carries what it was given, its
   * cleanlist is the MemList's node, whose clean-up is iFreeEntry,
   * followed by the caller's cleanup nodes in order, and iAddTask makes
   * it ready.
   */
  method LayTask(k: Kernel, name: Option<string>, priority: int, init: int, user: int,
                 cleanup: List?, stack: int, size: Mem.size_t, words: array<int>)
    returns (task: Task)
    requires k.Valid() && (cleanup != null ==> cleanup.Valid())
    requires words.Length == Mem.WORD / 4
    modifies k`taskready, words, cleanup
    ensures k.Valid() && fresh(task) && Given(task, name, priority, init, user) && task.state == TS_READY
    ensures task.canp == AlignInt(stack % Mem.WORD) && task.spupper == (stack + size) % Mem.WORD
    ensures (task.spupper - stack % Mem.WORD) % Mem.WORD == size
    ensures stack % Mem.WORD + size < Mem.WORD ==> task.spupper - stack % Mem.WORD == size
    ensures |task.cleanlist| >= 1 && FreeNode(task.cleanlist[0]) == [FreeEntry(task.cleanlist[0])]
    ensures task.cleanlist[1..] == old(Pending(cleanup)) && Pending(cleanup) == []
    ensures k.taskready == InsertAt(old(k.taskready), EnqueuePos(old(TaskPris(k.taskready)), task.pri), task)
  {
    ghost var pris := TaskPris(k.taskready);
    var t := NewTask(name, priority, init, user, cleanup, stack % Mem.WORD, (stack + size) % Mem.WORD);
    assert TaskPris(k.taskready) == pris;
    task := Admit(k, t, cleanup, words);
    StackSpan(stack, size);
  }

  /**
   * The lAddTask at the end of iCreateTask: the task is made ready and
   * enqueued, and its cleanlist and the caller's list stay as they were.
   */
  method Admit(k: Kernel, t: Task, cleanup: List?, words: array<int>) returns (task: Task)
    requires k.Valid() && !k.Known(t) && |t.cleanlist| >= 1
    requires AlignInt(t.splower) / 4 + t.cannum <= words.Length
    requires AlignInt(t.splower) + 4 * t.cannum < Mem.WORD
    modifies k`taskready, words
    modifies t`splower, t`canp, t`attached, t`state, t`sigalloc, t`sigwait, t`sigrecvd, t`trapcode
    ensures k.Valid() && task == t && task.state == TS_READY && task.canp == AlignInt(old(t.splower))
    ensures unchanged(t`name, t`pri, t`ntype, t`init, t`user, t`spupper, t`cleanlist)
    ensures FreeNode(t.cleanlist[0]) == old(FreeNode(t.cleanlist[0])) && Pending(cleanup) == old(Pending(cleanup))
    ensures k.taskready == InsertAt(old(k.taskready), EnqueuePos(old(TaskPris(k.taskready)), t.pri), t)
  {
    task := k.AddTask(t, words);
    PendingKept(cleanup);
    FreeNodeKept(task.cleanlist[0]);
  }

  /**
   * The MemList ml with its entries holds separate blocks of rs, which
   * given back leave the regions rs0.
   */
  predicate Owns(rs0: seq<Memory.Region>, rs: seq<Memory.Region>, ml: int, entries: seq<Memory.MemEntry>)
  {
    Memory.Holding(rs, Memory.Held(ml, 2, entries)) && Memory.Returned(rs, rs0, Memory.Held(ml, 2, entries))
  }

  /** The fields iCreateTask copies from its arguments into the task. */
  predicate Given(task: Task, name: Option<string>, priority: int, init: int, user: int)
    reads task`name, task`pri, task`ntype, task`init, task`user
  {
    task.name == name && task.pri == Mem.Short(priority) && task.ntype == NT_TASK
    && task.init == init && task.user == user
  }

  /** A well-formed port with no messages, signalling task me with signal sigbit. */
  predicate Idle(port: MsgPort, me: Task, sigbit: int)
    reads port, port.msglist
  {
    PortOk(port) && port.msglist == [] && port.sigtask == me && port.sigbit == sigbit
  }

  /**
   * iCreateMsgPort, called by task me: the port comes from a cleared
   * block of portsize bytes, and me allocates any free signal for it.
   * NULL, with memory and signals as they were, when either fails; the
   * block is then given back.  Otherwise the port is empty and signals me
   * with the highest free signal.
   */
  method CreateMsgPort(me: Task, mem: Memory.MemoryList, portsize: Mem.size_t) returns (port: MsgPort?, base: int)
    requires mem.Valid()
    modifies mem`regions, mem.headers, me`sigalloc, me`sigwait, me`sigrecvd
    ensures mem.Valid() && mem.headers == old(mem.headers)
    ensures port == null <==>
      Memory.Choose(old(mem.regions), Mem.NUnits(portsize), Libraries.ANY_CLEAR, 0).None?
      || AllocNumber(old(me.sigalloc), -1) < 0
    ensures port == null ==> Memory.Returned(old(mem.regions), mem.regions, []) && me.sigalloc == old(me.sigalloc)
    ensures port != null ==>
      && fresh(port) && Idle(port, me, AllocNumber(old(me.sigalloc), -1))
      && me.sigalloc == Grant(old(me.sigalloc), port.sigbit)
      && Memory.Lent(old(mem.regions), mem.regions, base, Mem.NUnits(portsize))
  {
    base := Libraries.AllocCleared(mem, portsize);
    if base == Memory.NULL {
      return null, base;
    }
    label Allocated:
    port := NewPort(me);
    Memory.ValidFramed@Allocated(mem);
    if port == null {
      Refuse(me, mem, base, portsize, old(mem.regions));
    }
  }

  /**
   * The signal half of iCreateMsgPort: me allocates any free signal; with
   * one the port is filled in, empty and signalling me with it, and
   * without one there is no port and me's signals are as they were.
   */
  method NewPort(me: Task) returns (port: MsgPort?)
    modifies me`sigalloc, me`sigwait, me`sigrecvd
    ensures port == null <==> AllocNumber(old(me.sigalloc), -1) < 0
    ensures port == null ==> me.sigalloc == old(me.sigalloc)
    ensures port != null ==>
      && fresh(port) && Idle(port, me, AllocNumber(old(me.sigalloc), -1))
      && me.sigalloc == Grant(old(me.sigalloc), port.sigbit)
  {
    var sigbit := me.AllocSignal(-1);
    if sigbit < 0 {
      return null;
    }
    port := new MsgPort(me, sigbit);
  }

  /**
   * The failure path of iCreateMsgPort: the port's block goes back, and
   * the signals of the calling task me stay as they are.
   */
  method Refuse(ghost me: Task, mem: Memory.MemoryList, base: int, portsize: Mem.size_t, ghost rs0: seq<Memory.Region>)
    requires mem.Valid() && Memory.Lent(rs0, mem.regions, base, Mem.NUnits(portsize))
    modifies mem`regions, mem.headers
    ensures mem.Valid() && mem.headers == old(mem.headers)
    ensures Memory.Returned(rs0, mem.regions, []) && me.sigalloc == old(me.sigalloc)
  {
    var _ := mem.FreeMem(base, portsize);
  }

  /**
   * iDeleteMsgPort, called by task me: NULL is ignored; otherwise me
   * frees the port's signal and the port's block goes back.
   */
  method DeleteMsgPort(me: Task, mem: Memory.MemoryList, port: MsgPort?, base: int, portsize: Mem.size_t)
    requires mem.Valid()
    requires port != null ==>
      0 <= port.sigbit <= SIGNUM_MAX && Memory.Returnable(mem.regions, base, Mem.NUnits(portsize))
    modifies mem`regions, mem.headers, me`sigalloc
    ensures mem.Valid() && mem.headers == old(mem.headers)
    ensures port == null ==> mem.regions == old(mem.regions) && me.sigalloc == old(me.sigalloc)
    ensures port != null ==>
      && me.sigalloc == Revoke(old(me.sigalloc), port.sigbit)
      && mem.regions == Memory.Released(old(mem.regions), base, Mem.NUnits(portsize))
  {
    if port == null {
      return;
    }
    me.FreeSignal(port.sigbit);
    var _ := mem.FreeMem(base, portsize);
  }

  /**
   * iCreateIORequest: NULL for a NULL port, or when no cleared block of
   * size bytes is free (nothing changes then); otherwise the request's
   * message is NT_REPLYMSG, so that CheckIO finds it done, with the port
   * as reply port and size as length.
   */
  method CreateIORequest(mem: Memory.MemoryList, port: MsgPort?, size: Mem.size_t) returns (ior: IORequest?, base: int)
    requires mem.Valid()
    modifies mem`regions, mem.headers
    ensures mem.Valid() && mem.headers == old(mem.headers)
    ensures ior == null <==>
      port == null || Memory.Choose(old(mem.regions), Mem.NUnits(size), Libraries.ANY_CLEAR, 0).None?
    ensures ior == null ==> mem.regions == old(mem.regions)
    ensures ior != null ==>
      && fresh(ior) && fresh(ior.message) && Unsent(ior, port, size) && CheckIO(ior) == 1
      && Memory.Lent(old(mem.regions), mem.regions, base, Mem.NUnits(size))
  {
    if port == null {
      return null, Memory.NULL;
    }
    base := Libraries.AllocCleared(mem, size);
    if base == Memory.NULL {
      return null, base;
    }
    label Allocated:
    ior := NewRequest(port, size);
    Memory.ValidFramed@Allocated(mem);
  }

  /**
   * A request not yet sent: a reply message for port of the given length,
   * bound to no device, with no flags.
   */
  predicate Unsent(ior: IORequest, port: MsgPort, size: Mem.size_t)
    reads ior, ior.message
  {
    && ior.message.ntype == NT_REPLYMSG && ior.message.replyport == port && ior.message.length == size
    && ior.device == null && ior.flags == 0
  }

  /** The request iCreateIORequest lays out in its cleared block. */
  method NewRequest(port: MsgPort, size: Mem.size_t) returns (ior: IORequest)
    ensures fresh(ior) && fresh(ior.message) && Unsent(ior, port, size)
  {
    var msg := new Message(port, size);
    msg.ntype := NT_REPLYMSG;
    ior := new IORequest(msg);
  }

  /**
   * iDeleteIORequest: NULL is ignored; otherwise the block goes back with
   * the size recorded in the message's length.
   */
  method DeleteIORequest(mem: Memory.MemoryList, ior: IORequest?, base: int)
    requires mem.Valid()
    requires ior != null ==> Memory.Returnable(mem.regions, base, Mem.NUnits(ior.message.length))
    modifies mem`regions, mem.headers
    ensures mem.Valid() && mem.headers == old(mem.headers)
    ensures ior == null ==> mem.regions == old(mem.regions)
    ensures ior != null ==> mem.regions == Memory.Released(old(mem.regions), base, Mem.NUnits(ior.message.length))
  {
    if ior == null {
      return;
    }
    var _ := mem.FreeMem(base, ior.message.length);
  }

}
