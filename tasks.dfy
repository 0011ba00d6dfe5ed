/**
 * Tasks and signals of the exec kernel (mod/exec/task.c, the cleanup task
 * of mod/exec/func0.c and process_removing of mod/exec/mp.c).
 *
 * A Task is an object whose fields the kernel updates in place.  The
 * kernel's three task lists (taskready, taskwait, taskremoved) are
 * sequences of tasks; a task is known to the kernel while it is on one of
 * them.  The kernel invariant Valid ties every listed task's state to the
 * one list it is on, and keeps taskready ordered by priority.
 *
 * The caller's task (port_ThisTask) is a parameter.  The spin lock
 * tasklock is not modelled: each method is one atomic step.  Where the C
 * code calls lSwitch or lReschedule the model stops.
 */
module Tasks {
  import opened Wrappers
  import opened Lists
  import Mem

  // Task.state
  const TS_INVALID := 0
  const TS_READY := 1
  const TS_WAIT := 2
  const TS_REMOVING := 3
  const TS_REMOVED := 4

  /** The priority of the idle tasks; it and all lower priorities are reserved. */
  const TASK_PRI_IDLE := -32767

  // Reserved signals
  const SIGB_SINGLE := 0
  const SIGB_CLEANUP := 1
  const SIGF_SINGLE: bv32 := 1
  const SIGF_CLEANUP: bv32 := 2
  /** The highest signal number: an unsigned int has 32 bits. */
  const SIGNUM_MAX := 31

  // ---------------------------------------------------------------------
  // Signal masks
  // ---------------------------------------------------------------------

  /** 1U << n. */
  function Bit(n: nat): bv32
    requires n <= SIGNUM_MAX
  {
    (1 as bv32) << (n as bv5)
  }

  /** mask | 1U << n: signal n added to the mask. */
  function Grant(mask: bv32, n: nat): bv32
    requires n <= SIGNUM_MAX
  {
    mask | Bit(n)
  }

  /** mask & ~(1U << n): signal n taken out of the mask. */
  function Revoke(mask: bv32, n: nat): bv32
    requires n <= SIGNUM_MAX
  {
    mask & !Bit(n)
  }

  /** mask & ~bits: the bits taken out of the mask. */
  function Without(mask: bv32, bits: bv32): bv32 {
    mask & !bits
  }

  /** Signal n is set in the mask. */
  predicate Taken(mask: bv32, n: nat)
    requires n <= SIGNUM_MAX
  {
    mask & Bit(n) != 0
  }

  /** The highest signal number at most n whose bit is clear in alloc, or -1 if none is. */
  function HighestFree(alloc: bv32, n: int): (r: int)
    requires -1 <= n <= SIGNUM_MAX
    ensures -1 <= r <= n
    ensures r >= 0 ==> !Taken(alloc, r)
    ensures forall k: nat :: r < k <= n ==> Taken(alloc, k)
    decreases n + 1
  {
    if n < 0 then -1
    else if !Taken(alloc, n) then n
    else HighestFree(alloc, n - 1)
  }

  /**
   * The number iAllocSignal returns to a task whose allocated signals are
   * alloc: the requested one if it is free, else the highest free one when
   * any number will do, else -1.
   */
  function AllocNumber(alloc: bv32, reqnum: int): int
    requires reqnum <= SIGNUM_MAX
  {
    if 0 <= reqnum then
      (if Taken(alloc, reqnum) then -1 else reqnum)
    else HighestFree(alloc, SIGNUM_MAX)
  }

  /** A signal is handed out only if it was free; a request fails only if it could not be met. */
  lemma {:induction false} AllocNumberIsFree(alloc: bv32, reqnum: int)
    requires reqnum <= SIGNUM_MAX
    ensures var r := AllocNumber(alloc, reqnum);
      (r == -1 || (0 <= r <= SIGNUM_MAX && !Taken(alloc, r)))
      && (0 <= reqnum ==> (r == reqnum <==> !Taken(alloc, reqnum)))
      && (0 <= reqnum ==> (r == -1 <==> Taken(alloc, reqnum)))
      && (reqnum < 0 ==> (r == -1 <==> forall k: nat :: k <= SIGNUM_MAX ==> Taken(alloc, k)))
  {
    var r := AllocNumber(alloc, reqnum);
    if reqnum < 0 && r != -1 {
      assert !Taken(alloc, r);
    }
  }

  /** FreeSignal after a successful AllocSignal gives the allocated set back. */
  lemma {:induction false} FreeUndoesAlloc(alloc: bv32, reqnum: int)
    requires reqnum <= SIGNUM_MAX
    requires AllocNumber(alloc, reqnum) >= 0
    ensures var n := AllocNumber(alloc, reqnum);
      Revoke(Grant(alloc, n), n) == alloc
  {
    AllocNumberIsFree(alloc, reqnum);
  }

  /** A task waiting for the signals of wait is woken once it has received one of them. */
  predicate Wakes(recvd: bv32, wait: bv32) {
    recvd & wait != 0
  }

  /**
   * A task that blocked in Wait(mask) because none of mask had arrived,
   * and is then woken by Signal(sent), finds a match on its next pass
   * through the Wait loop: the bits of sent that are in mask.
   */
  lemma {:induction false} WokenWaitMatches(recvd: bv32, mask: bv32, sent: bv32)
    requires recvd & mask == 0
    requires (recvd | sent) & mask != 0
    ensures (recvd | sent) & mask == sent & mask
  {
  }

  // ---------------------------------------------------------------------
  // Stack canaries
  // ---------------------------------------------------------------------

  /**
   * (dest + sizeof (int) - 1) & ~(sizeof (int) - 1) in uintptr_t: dest
   * rounded up to a multiple of four, the addition wrapping at 2^32.
   */
  function AlignInt(dest: Mem.size_t): (p: Mem.size_t)
    ensures p % 4 == 0
    ensures dest + 3 < Mem.WORD ==> dest <= p < dest + 4
  {
    var x := (dest + 3) % Mem.WORD;
    x - x % 4
  }

  /**
   * The canary words: the int at address p + 4 i holds i, for every i
   * below num.  Memory is an array of ints; the int at byte address a is
   * words[a / 4].
   */
  predicate Intact(words: seq<int>, p: nat, num: nat)
    requires p / 4 + num <= |words|
  {
    forall k :: p / 4 <= k < p / 4 + num ==> words[k] == k - p / 4
  }

  /**
   * set_canaries: write the num canaries at dest rounded up to int
   * alignment; returns that address and the address just past the last
   * canary, the new lower stack bound.
   */
  method SetCanaries(words: array<int>, dest: Mem.size_t, num: nat) returns (p: nat, past: int)
    requires AlignInt(dest) / 4 + num <= words.Length
    modifies words
    ensures p == AlignInt(dest) && past == p + 4 * num
    ensures Intact(words[..], p, num)
    ensures forall k :: 0 <= k < words.Length && !(p / 4 <= k < p / 4 + num) ==> words[k] == old(words[k])
  {
    p := AlignInt(dest);
    var i := 0;
    while i < num
      invariant i <= num
      invariant forall k :: p / 4 <= k < p / 4 + i ==> words[k] == k - p / 4
      invariant forall k :: 0 <= k < words.Length && !(p / 4 <= k < p / 4 + i) ==> words[k] == old(words[k])
    {
      words[p / 4 + i] := i;
      i := i + 1;
    }
    past := p + 4 * num;
  }

  /** check_canaries: raises the alert (returns true) exactly when some canary was overwritten. */
  method CheckCanaries(words: array<int>, p: nat, num: nat) returns (alert: bool)
    requires p / 4 + num <= words.Length
    ensures alert <==> !Intact(words[..], p, num)
  {
    var i := 0;
    while i < num
      invariant i <= num
      invariant forall k :: p / 4 <= k < p / 4 + i ==> words[k] == k - p / 4
    {
      if words[p / 4 + i] != i {
        return true;
      }
      i := i + 1;
    }
    return false;
  }

  // ---------------------------------------------------------------------
  // Tasks
  // ---------------------------------------------------------------------

  class Task {
    var name: Option<string>
    var ntype: int
    var pri: int
    var attached: int
    var state: int
    var sigalloc: bv32
    var sigwait: bv32
    var sigrecvd: bv32
    /** The entry point, a code address. */
    var init: int
    var splower: Mem.size_t
    var spupper: Mem.size_t
    /** canaries.p and canaries.num. */
    var canp: nat
    var cannum: nat
    /** The nodes to dispose of after the task has been removed. */
    var cleanlist: seq<Node>
    /** The trap handler, a code address; 0 is NULL. */
    var trapcode: int
    var user: int

    /** A Task in memory allocated with MEMF_CLEAR: every field is zero. */
    constructor ()
      ensures name == None && ntype == NT_UNKNOWN && pri == 0 && state == TS_INVALID
      ensures sigalloc == 0 && sigwait == 0 && sigrecvd == 0
      ensures splower == 0 && spupper == 0 && cannum == 0 && cleanlist == [] && trapcode == 0
    {
      name := None;
      ntype := NT_UNKNOWN;
      pri := 0;
      attached := 0;
      state := TS_INVALID;
      sigalloc := 0;
      sigwait := 0;
      sigrecvd := 0;
      init := 0;
      splower := 0;
      spupper := 0;
      canp := 0;
      cannum := 0;
      cleanlist := [];
      trapcode := 0;
      user := 0;
    }

    /**
     * The part of iAddTask that sets up the task itself: canaries laid at
     * the bottom of the stack, which then starts above them; not
     * attached; ready; only SIGF_SINGLE allocated; nothing waited for or
     * received; the default trap handler deftrap if it has none.
     */
    method Prepare(words: array<int>, deftrap: int)
      requires AlignInt(splower) / 4 + cannum <= words.Length
      requires AlignInt(splower) + 4 * cannum < Mem.WORD
      modifies this`splower, this`canp, this`attached, this`state, this`sigalloc, this`sigwait, this`sigrecvd, this`trapcode, words
      ensures canp == AlignInt(old(splower)) && splower == canp + 4 * cannum
      ensures Intact(words[..], canp, cannum)
      ensures attached == 0 && state == TS_READY
      ensures sigalloc == SIGF_SINGLE && sigwait == 0 && sigrecvd == 0
      ensures trapcode == if old(trapcode) == 0 then deftrap else old(trapcode)
    {
      var p, past := SetCanaries(words, splower, cannum);
      canp := p;
      splower := past;
      attached := 0;
      state := TS_READY;
      sigalloc := SIGF_SINGLE;
      sigwait := 0;
      sigrecvd := 0;
      if trapcode == 0 {
        trapcode := deftrap;
      }
    }

    /**
     * iAllocSignal, called by this task.  On success the signal's bit is
     * set in sigalloc and cleared in sigwait and sigrecvd; on failure
     * nothing changes.  A reqnum above 31 makes the C shift undefined.
     */
    method AllocSignal(reqnum: int) returns (signum: int)
      requires reqnum <= SIGNUM_MAX
      modifies this`sigalloc, this`sigwait, this`sigrecvd
      ensures signum == AllocNumber(old(sigalloc), reqnum)
      ensures signum >= 0 ==> (signum <= SIGNUM_MAX
        && sigalloc == Grant(old(sigalloc), signum)
        && sigwait == Revoke(old(sigwait), signum)
        && sigrecvd == Revoke(old(sigrecvd), signum))
      ensures signum < 0 ==> sigalloc == old(sigalloc) && sigwait == old(sigwait) && sigrecvd == old(sigrecvd)
    {
      var alloc, wait, recvd := sigalloc, sigwait, sigrecvd;
      if 0 <= reqnum {
        if Taken(alloc, reqnum) {
          return -1;
        }
        signum := reqnum;
      } else {
        signum := SearchFree(alloc);
        if signum < 0 {
          return -1;
        }
      }
      sigalloc := Grant(alloc, signum);
      sigwait := Revoke(wait, signum);
      sigrecvd := Revoke(recvd, signum);
    }

    /**
     * The start of cleanup, run by the cleanup task: iAllocSignal of
     * SIGB_CLEANUP, after which its KASSERT holds: the signal is allocated.
     */
    method ClaimCleanup()
      modifies this`sigalloc, this`sigwait, this`sigrecvd
      ensures Taken(sigalloc, SIGB_CLEANUP)
      ensures sigalloc == Grant(old(sigalloc), SIGB_CLEANUP)
    {
      CleanupSignalHeld(sigalloc);
      var signum := AllocSignal(SIGB_CLEANUP);
    }

    /** iFreeSignal, called by this task: clears the signal's bit in sigalloc. */
    method FreeSignal(signum: nat)
      requires signum <= SIGNUM_MAX
      modifies this`sigalloc
      ensures sigalloc == Revoke(old(sigalloc), signum)
    {
      sigalloc := Revoke(sigalloc, signum);
    }

    /** iClearSignal, called by this task: clears sigmask in sigrecvd and returns the old sigrecvd. */
    method ClearSignal(sigmask: bv32) returns (prev: bv32)
      modifies this`sigrecvd
      ensures prev == old(sigrecvd)
      ensures sigrecvd == Without(old(sigrecvd), sigmask)
    {
      prev := sigrecvd;
      sigrecvd := Without(prev, sigmask);
    }
  }

  /**
   * The search loop of iAllocSignal: from signal 31 down, the first whose
   * bit is clear in alloc, or -1.  The C loop also shifts target right
   * alongside signum, keeping target == 1U << signum; the model derives
   * target from signum after the loop instead.
   */
  method SearchFree(alloc: bv32) returns (signum: int)
    ensures signum == HighestFree(alloc, SIGNUM_MAX)
  {
    signum := SIGNUM_MAX;
    while signum >= 0
      invariant -1 <= signum <= SIGNUM_MAX
      invariant HighestFree(alloc, signum) == HighestFree(alloc, SIGNUM_MAX)
    {
      if !Taken(alloc, signum) {
        break;
      }
      signum := signum - 1;
    }
  }

  /** The priorities of a task list, in list order. */
  function TaskPris(ts: seq<Task>): (r: seq<int>)
    reads ts`pri
    ensures |r| == |ts| && forall i :: 0 <= i < |ts| ==> r[i] == ts[i].pri
  {
    if ts == [] then [] else TaskPris(ts[..|ts| - 1]) + [ts[|ts| - 1].pri]
  }

  /** A task list in priority order: no task is ahead of one of higher priority. */
  predicate ByPriority(ts: seq<Task>)
    reads ts`pri
  {
    forall i, j :: 0 <= i < j < |ts| ==> ts[i].pri >= ts[j].pri
  }

  lemma {:induction false} TaskPrisInsertAt(ts: seq<Task>, i: nat, t: Task)
    requires i <= |ts|
    ensures TaskPris(InsertAt(ts, i, t)) == InsertAt(TaskPris(ts), i, t.pri)
  {
    assert |TaskPris(InsertAt(ts, i, t))| == |InsertAt(TaskPris(ts), i, t.pri)|;
  }

  lemma {:induction false} TaskPrisRemoveAt(ts: seq<Task>, i: nat)
    requires i < |ts|
    ensures TaskPris(RemoveAt(ts, i)) == RemoveAt(TaskPris(ts), i)
  {
    assert |TaskPris(RemoveAt(ts, i))| == |RemoveAt(TaskPris(ts), i)|;
  }

  /** Removing an element keeps a priority order. */
  lemma {:induction false} RemoveKeepsOrder(pris: seq<int>, i: nat)
    requires i < |pris| && NonIncreasing(pris)
    ensures NonIncreasing(RemoveAt(pris, i))
  {
    var r := RemoveAt(pris, i);
    forall a, b | 0 <= a < b < |r| ensures r[a] >= r[b] {
      var a0 := if a < i then a else a + 1;
      var b0 := if b < i then b else b + 1;
      assert r[a] == pris[a0] && r[b] == pris[b0];
    }
  }

  /** The members of a distinct sequence after one is removed. */
  lemma {:induction false} RemoveAtMembers<T>(s: seq<T>, i: nat, x: T)
    requires i < |s| && Distinct(s)
    ensures x in RemoveAt(s, i) <==> x in s && x != s[i]
  {
    RemoveAtDistinct(s, i);
    if x in s && x != s[i] {
      var j :| 0 <= j < |s| && s[j] == x;
      if j < i {
        assert RemoveAt(s, i)[j] == x;
      } else {
        assert RemoveAt(s, i)[j - 1] == x;
      }
    }
  }

  /** Every task of ts is in a state from lo to hi. */
  predicate InState(ts: seq<Task>, lo: int, hi: int)
    reads ts`state
  {
    forall i :: 0 <= i < |ts| ==> lo <= ts[i].state <= hi
  }

  /**
   * Enqueueing a ready task by priority keeps a list of ready tasks
   * distinct, ready and in priority order, and adds just that task.
   */
  lemma {:induction false} ReadyInsert(ts: seq<Task>, t: Task)
    requires Distinct(ts) && ByPriority(ts) && InState(ts, TS_READY, TS_READY)
    requires t !in ts && t.state == TS_READY
    ensures var r := InsertAt(ts, EnqueuePos(TaskPris(ts), t.pri), t);
      Distinct(r) && ByPriority(r) && InState(r, TS_READY, TS_READY)
      && forall x :: x in r <==> x in ts || x == t
  {
    var i := EnqueuePos(TaskPris(ts), t.pri);
    var r := InsertAt(ts, i, t);
    forall x ensures x in r <==> x in ts || x == t {
      InsertAtMembers(ts, i, t, x);
    }
    forall k | 0 <= k < |r| ensures r[k].state == TS_READY {
      InsertAtIndex(ts, i, t, k);
    }
    EnqueueKeepsOrder(TaskPris(ts), t.pri);
    TaskPrisInsertAt(ts, i, t);
    InsertAtDistinct(ts, i, t);
  }

  /**
   * Removing a task keeps a list of ready tasks distinct, ready and in
   * priority order, and drops just that task.
   */
  lemma {:induction false} ReadyRemove(ts: seq<Task>, t: Task)
    requires Distinct(ts) && ByPriority(ts) && InState(ts, TS_READY, TS_READY) && t in ts
    ensures var r := RemoveAt(ts, IndexOf(ts, t));
      Distinct(r) && ByPriority(r) && InState(r, TS_READY, TS_READY)
      && forall x :: x in r <==> x in ts && x != t
  {
    var i := IndexOf(ts, t);
    RemoveAtDistinct(ts, i);
    TaskPrisRemoveAt(ts, i);
    RemoveKeepsOrder(TaskPris(ts), i);
    RemoveInState(ts, i, TS_READY, TS_READY);
    forall x ensures x in RemoveAt(ts, i) <==> x in ts && x != t {
      RemoveAtMembers(ts, i, x);
    }
  }

  /** Removing a task keeps the others in their states. */
  lemma {:induction false} RemoveInState(ts: seq<Task>, i: nat, lo: int, hi: int)
    requires i < |ts| && InState(ts, lo, hi)
    ensures InState(RemoveAt(ts, i), lo, hi)
  {
    var r := RemoveAt(ts, i);
    forall k | 0 <= k < |r| ensures lo <= r[k].state <= hi {
      assert r[k] == if k < i then ts[k] else ts[k + 1];
    }
  }

  /** Appending a task to the tail of a list keeps it distinct and in its states. */
  lemma {:induction false} AppendTask(ts: seq<Task>, t: Task, lo: int, hi: int)
    requires Distinct(ts) && InState(ts, lo, hi) && t !in ts && lo <= t.state <= hi
    ensures Distinct(ts + [t]) && InState(ts + [t], lo, hi)
  {
    var r := ts + [t];
    forall a, b | 0 <= a < b < |r| ensures r[a] != r[b] {
      if b == |ts| {
        assert r[a] == ts[a];
      }
    }
  }

  /** The clean-up request freenode makes for one node of a cleanlist. */
  datatype CleanOp = FreeEntry(ml: Node) | ReplyMsg(msg: Node)

  /** Tasks whose states and cleanlists are as they were partition as they did. */
  twostate lemma {:induction false} RemovedKept(ts: seq<Task>)
    requires forall t :: t in ts ==> t.state == old(t.state) && t.cleanlist == old(t.cleanlist)
    ensures Removing(ts) == old(Removing(ts)) && Finished(ts) == old(Finished(ts))
    ensures Cleanlists(Finished(ts)) == old(Cleanlists(Finished(ts)))
  {
    RemovingKept(ts);
    FinishedKept(ts);
  }

  /** The Removing half of RemovedKept. */
  twostate lemma {:induction false} RemovingKept(ts: seq<Task>)
    requires forall t :: t in ts ==> t.state == old(t.state)
    ensures Removing(ts) == old(Removing(ts))
  {
    if ts != [] {
      var last := |ts| - 1;
      assert ts[last] in ts;
      assert forall t :: t in ts[..last] ==> t in ts;
      RemovingKept(ts[..last]);
    }
  }

  /** The Finished half of RemovedKept, with the cleanlists of the finished tasks. */
  twostate lemma {:induction false} FinishedKept(ts: seq<Task>)
    requires forall t :: t in ts ==> t.state == old(t.state) && t.cleanlist == old(t.cleanlist)
    ensures Finished(ts) == old(Finished(ts))
    ensures Cleanlists(Finished(ts)) == old(Cleanlists(Finished(ts)))
  {
    if ts != [] {
      var last := |ts| - 1;
      assert ts[last] in ts;
      assert ts[last].state == old(ts[last].state) && ts[last].cleanlist == old(ts[last].cleanlist);
      assert forall t :: t in ts[..last] ==> t in ts;
      FinishedKept(ts[..last]);
    }
  }

  /**
   * The start of cleanup: iAllocSignal(SIGB_CLEANUP) leaves the signal
   * allocated whether it was free or already taken, so the KASSERT on
   * sigalloc & SIGF_CLEANUP that follows holds for every sigalloc.
   */
  lemma {:induction false} CleanupSignalHeld(alloc: bv32)
    ensures SIGF_CLEANUP == Bit(SIGB_CLEANUP)
    ensures var n := AllocNumber(alloc, SIGB_CLEANUP);
      (n == SIGB_CLEANUP <==> alloc & SIGF_CLEANUP == 0)
      && (n == -1 <==> alloc & SIGF_CLEANUP != 0)
      && (if n >= 0 then Grant(alloc, n) else alloc) & SIGF_CLEANUP != 0
  {
    AllocNumberIsFree(alloc, SIGB_CLEANUP);
    assert Bit(SIGB_CLEANUP) == SIGF_CLEANUP;
  }

  /** freenode: NT_MEMLIST nodes are given to FreeEntry, NT_MESSAGE nodes to ReplyMsg, others are dropped. */
  function FreeNode(n: Node): (r: seq<CleanOp>)
    reads n`ntype
    ensures n.ntype == NT_MEMLIST <==> r == [FreeEntry(n)]
    ensures n.ntype == NT_MESSAGE <==> r == [ReplyMsg(n)]
    ensures r == [] <==> n.ntype != NT_MEMLIST && n.ntype != NT_MESSAGE
  {
    if n.ntype == NT_MEMLIST then [FreeEntry(n)]
    else if n.ntype == NT_MESSAGE then [ReplyMsg(n)]
    else []
  }

  /** The requests for a sequence of nodes, in order. */
  function FreeNodes(ns: seq<Node>): (r: seq<CleanOp>)
    reads ns`ntype
  {
    if ns == [] then [] else FreeNodes(ns[..|ns| - 1]) + FreeNode(ns[|ns| - 1])
  }

  /** The cleanlists of a sequence of tasks, concatenated in order. */
  function Cleanlists(ts: seq<Task>): (r: seq<Node>)
    reads ts`cleanlist
  {
    if ts == [] then [] else Cleanlists(ts[..|ts| - 1]) + ts[|ts| - 1].cleanlist
  }

  /** The tasks of ts that may still execute (TS_REMOVING), in order. */
  function Removing(ts: seq<Task>): (r: seq<Task>)
    reads ts`state
    ensures forall i :: 0 <= i < |r| ==> r[i] in ts && r[i].state == TS_REMOVING
    ensures forall i :: 0 <= i < |ts| && ts[i].state == TS_REMOVING ==> ts[i] in r
  {
    if ts == [] then []
    else if ts[|ts| - 1].state == TS_REMOVING then Removing(ts[..|ts| - 1]) + [ts[|ts| - 1]]
    else Removing(ts[..|ts| - 1])
  }

  /** The tasks of ts that have been switched out for the last time, in order. */
  function Finished(ts: seq<Task>): (r: seq<Task>)
    reads ts`state
    ensures forall i :: 0 <= i < |r| ==> r[i] in ts && r[i].state != TS_REMOVING
    ensures forall i :: 0 <= i < |ts| && ts[i].state != TS_REMOVING ==> ts[i] in r
  {
    if ts == [] then []
    else if ts[|ts| - 1].state != TS_REMOVING then Finished(ts[..|ts| - 1]) + [ts[|ts| - 1]]
    else Finished(ts[..|ts| - 1])
  }

  /** Removing and Finished of a prefix one task longer. */
  lemma {:induction false} PartitionStep(ts: seq<Task>, i: nat)
    requires i < |ts|
    ensures Removing(ts[..i + 1]) == Removing(ts[..i]) + if ts[i].state == TS_REMOVING then [ts[i]] else []
    ensures Finished(ts[..i + 1]) == Finished(ts[..i]) + if ts[i].state == TS_REMOVING then [] else [ts[i]]
  {
    assert ts[..i + 1][..i] == ts[..i];
  }

  /** The partition of cleanup keeps every task exactly once: none is lost, none is duplicated. */
  lemma {:induction false} PartitionCounts(ts: seq<Task>)
    ensures |Removing(ts)| + |Finished(ts)| == |ts|
    ensures Distinct(ts) ==> Distinct(Removing(ts)) && Distinct(Finished(ts))
  {
    if ts != [] {
      var u := ts[..|ts| - 1];
      PartitionCounts(u);
      if Distinct(ts) {
        assert Distinct(u);
        assert ts[|ts| - 1] !in u;
      }
    }
  }

  /** The tasks on three lists. */
  ghost function Members(r: seq<Task>, w: seq<Task>, x: seq<Task>): set<Task> {
    (set t | t in r) + (set t | t in w) + (set t | t in x)
  }

  /** Moving a task from one distinct list to another keeps the set of listed tasks. */
  lemma {:induction false} MembersMove(r: seq<Task>, w: seq<Task>, x: seq<Task>, i: nat, r2: seq<Task>)
    requires Distinct(w) && i < |w|
    requires forall y :: y in r2 <==> y in r || y == w[i]
    ensures Members(r2, RemoveAt(w, i), x) == Members(r, w, x)
  {
    forall y ensures y in RemoveAt(w, i) <==> y in w && y != w[i] {
      RemoveAtMembers(w, i, y);
    }
  }

  class Kernel {
    var taskready: seq<Task>
    var taskwait: seq<Task>
    var taskremoved: seq<Task>
    /** lib->trapcode: the default trap handler. */
    var trapcode: int
    /** lib->cleantask: the task running cleanup. */
    var cleantask: Task?

    /**
     * Each task is on at most one list, and the list names its state:
     * taskready holds ready tasks in priority order, taskwait waiting
     * tasks, taskremoved tasks being or done being removed.
     */
    ghost predicate Valid()
      reads this, taskready`state, taskready`pri, taskwait`state, taskremoved`state
    {
      Distinct(taskready) && Distinct(taskwait) && Distinct(taskremoved)
      && InState(taskready, TS_READY, TS_READY)
      && InState(taskwait, TS_WAIT, TS_WAIT)
      && InState(taskremoved, TS_REMOVING, TS_REMOVED)
      && ByPriority(taskready)
    }

    /** A task added and not yet cleaned up: it is on one of the lists. */
    ghost predicate Known(t: Task)
      reads this
    {
      t in taskready || t in taskwait || t in taskremoved
    }

    /** The tasks on the kernel's lists. */
    ghost function Listed(): set<Task>
      reads this
    {
      Members(taskready, taskwait, taskremoved)
    }

    /** The state of a known task says which list it is on, and it is on no other. */
    lemma {:induction false} Located(t: Task)
      requires Valid() && Known(t)
      ensures t.state == TS_READY <==> t in taskready
      ensures t.state == TS_WAIT <==> t in taskwait
      ensures TS_REMOVING <= t.state <= TS_REMOVED <==> t in taskremoved
    {
      if t in taskready {
        var i :| 0 <= i < |taskready| && taskready[i] == t;
      }
      if t in taskwait {
        var i :| 0 <= i < |taskwait| && taskwait[i] == t;
      }
      if t in taskremoved {
        var i :| 0 <= i < |taskremoved| && taskremoved[i] == t;
      }
    }

    constructor (trapcode: int)
      ensures Valid() && this.trapcode == trapcode && cleantask == null
      ensures taskready == [] && taskwait == [] && taskremoved == []
    {
      taskready := [];
      taskwait := [];
      taskremoved := [];
      this.trapcode := trapcode;
      cleantask := null;
    }

    /** iEnqueue of a ready task on taskready: before the first task of strictly lower priority. */
    method EnqueueReady(t: Task)
      requires Valid() && !Known(t) && t.state == TS_READY
      modifies this`taskready
      ensures Valid() && Known(t)
      ensures taskready == InsertAt(old(taskready), EnqueuePos(old(TaskPris(taskready)), t.pri), t)
      ensures forall x :: x in taskready <==> x in old(taskready) || x == t
    {
      var i := 0;
      while i < |taskready|
        invariant i <= |taskready|
        invariant forall j :: 0 <= j < i ==> taskready[j].pri >= t.pri
      {
        if taskready[i].pri < t.pri {
          break;
        }
        i := i + 1;
      }
      EnqueuePosUnique(TaskPris(taskready), t.pri, i);
      ReadyInsert(taskready, t);
      taskready := InsertAt(taskready, i, t);
    }

    /** iRemove of a ready task: it is then on no list. */
    method RemoveReady(t: Task)
      requires Valid() && t in taskready
      modifies this`taskready
      ensures Valid() && !Known(t)
      ensures taskready == RemoveAt(old(taskready), IndexOf(old(taskready), t))
      ensures forall x :: x in taskready <==> x in old(taskready) && x != t
    {
      Located(t);
      var i := IndexOf(taskready, t);
      ReadyRemove(taskready, t);
      taskready := RemoveAt(taskready, i);
    }

    /** A waiting task becomes ready: it leaves taskwait and is enqueued on taskready by priority. */
    method MakeReady(task: Task)
      requires Valid() && task in taskwait
      modifies this`taskready, this`taskwait, task`state
      ensures Valid() && task.state == TS_READY
      ensures Listed() == old(Listed())
      ensures taskwait == RemoveAt(old(taskwait), IndexOf(old(taskwait), task))
      ensures taskready == InsertAt(old(taskready), EnqueuePos(old(TaskPris(taskready)), task.pri), task)
    {
      Located(task);
      ghost var pris := TaskPris(taskready);
      var i := IndexOf(taskwait, task);
      RemoveAtDistinct(taskwait, i);
      RemoveInState(taskwait, i, TS_WAIT, TS_WAIT);
      ghost var (r0, w0) := (taskready, taskwait);
      taskwait := RemoveAt(taskwait, i);
      task.state := TS_READY;
      assert TaskPris(taskready) == pris;
      EnqueueReady(task);
      MembersMove(r0, w0, taskremoved, i, taskready);
    }

    /** A ready task blocks: it leaves taskready for the tail of taskwait. */
    method Block(task: Task)
      requires Valid() && task in taskready
      modifies this`taskready, this`taskwait, task`state
      ensures Valid() && task.state == TS_WAIT
      ensures taskready == RemoveAt(old(taskready), IndexOf(old(taskready), task))
      ensures taskwait == old(taskwait) + [task]
    {
      RemoveReady(task);
      task.state := TS_WAIT;
      AppendTask(taskwait, task, TS_WAIT, TS_WAIT);
      taskwait := taskwait + [task];
    }

    /**
     * iAddTask after port_prepstack: the task is set up (see
     * Task.Prepare) and enqueued on taskready by priority.
     */
    method AddTask(task: Task, words: array<int>) returns (r: Task)
      requires Valid() && !Known(task)
      requires AlignInt(task.splower) / 4 + task.cannum <= words.Length
      requires AlignInt(task.splower) + 4 * task.cannum < Mem.WORD
      modifies this`taskready, words
      modifies task`splower, task`canp, task`attached, task`state, task`sigalloc, task`sigwait, task`sigrecvd, task`trapcode
      ensures Valid() && r == task && Known(task)
      ensures task.canp == AlignInt(old(task.splower)) && task.splower == task.canp + 4 * task.cannum
      ensures Intact(words[..], task.canp, task.cannum)
      ensures task.attached == 0 && task.state == TS_READY
      ensures task.sigalloc == SIGF_SINGLE && task.sigwait == 0 && task.sigrecvd == 0
      ensures task.trapcode == if old(task.trapcode) == 0 then trapcode else old(task.trapcode)
      ensures taskready == InsertAt(old(taskready), EnqueuePos(old(TaskPris(taskready)), task.pri), task)
      ensures unchanged(task`name, task`pri, task`ntype, task`init, task`user, task`spupper, task`cleanlist)
    {
      ghost var pris := TaskPris(taskready);
      task.Prepare(words, trapcode);
      assert TaskPris(taskready) == pris;
      EnqueueReady(task);
      r := task;
    }

    /**
     * iRemTask, called by task me: me leaves taskready, becomes
     * TS_REMOVING and goes to the tail of taskremoved.  The C code then
     * switches away for good.
     */
    method RemTask(me: Task)
      requires Valid() && me in taskready
      modifies this`taskready, this`taskremoved, me`state
      ensures Valid() && me.state == TS_REMOVING
      ensures taskready == RemoveAt(old(taskready), IndexOf(old(taskready), me))
      ensures taskremoved == old(taskremoved) + [me]
    {
      RemoveReady(me);
      me.state := TS_REMOVING;
      AppendTask(taskremoved, me, TS_REMOVING, TS_REMOVED);
      taskremoved := taskremoved + [me];
    }

    /**
     * iSignal: the signals arrive in sigrecvd; a task waiting for any of
     * the signals it now has is made ready and enqueued by priority.
     */
    method Signal(task: Task, sigmask: bv32)
      requires Valid() && Known(task)
      modifies this`taskready, this`taskwait, task`sigrecvd, task`state
      ensures Valid() && Known(task)
      ensures Listed() == old(Listed())
      ensures task.sigrecvd == old(task.sigrecvd) | sigmask
      ensures var woken := old(task.state) == TS_WAIT && Wakes(task.sigrecvd, task.sigwait);
        if woken then
          task.state == TS_READY
          && taskwait == RemoveAt(old(taskwait), IndexOf(old(taskwait), task))
          && taskready == InsertAt(old(taskready), EnqueuePos(old(TaskPris(taskready)), task.pri), task)
        else
          task.state == old(task.state) && taskwait == old(taskwait) && taskready == old(taskready)
    {
      ghost var pris := TaskPris(taskready);
      task.sigrecvd := task.sigrecvd | sigmask;
      if task.state == TS_WAIT && Wakes(task.sigrecvd, task.sigwait) {
        Located(task);
        assert TaskPris(taskready) == pris;
        MakeReady(task);
      }
    }

    /**
     * One pass of the loop of iWait(sigmask), called by task me.  If any
     * signal of sigmask has arrived, those signals are consumed and
     * returned.  Otherwise 0 is returned and me blocks: it records
     * sigmask in sigwait, leaves taskready and goes to the tail of
     * taskwait; the C code switches away and makes another pass once a
     * Signal has made it ready again.
     */
    method WaitStep(me: Task, sigmask: bv32) returns (matched: bv32)
      requires Valid() && me in taskready
      modifies this`taskready, this`taskwait, me`sigrecvd, me`sigwait, me`state
      ensures Valid() && taskremoved == old(taskremoved)
      ensures matched == old(me.sigrecvd) & sigmask
      ensures matched != 0 ==> (me.sigrecvd == old(me.sigrecvd) & !sigmask && me.sigwait == old(me.sigwait)
        && me.state == TS_READY && taskready == old(taskready) && taskwait == old(taskwait))
      ensures matched == 0 ==> (me.sigrecvd == old(me.sigrecvd) && me.sigwait == sigmask
        && me.state == TS_WAIT
        && taskready == RemoveAt(old(taskready), IndexOf(old(taskready), me))
        && taskwait == old(taskwait) + [me])
    {
      matched := me.sigrecvd & sigmask;
      if matched != 0 {
        me.sigrecvd := me.sigrecvd & !sigmask;
        return;
      }
      me.sigwait := sigmask;
      Block(me);
    }

    /**
     * iSetTaskPri: the new priority is stored in the node's short pri
     * field; a ready task is moved to its new place in taskready.
     * Returns the old priority.
     */
    method SetTaskPri(task: Task, priority: int) returns (prev: int)
      requires Valid() && Known(task)
      modifies this`taskready, task`pri
      ensures Valid() && Known(task)
      ensures prev == old(task.pri) && task.pri == Mem.Short(priority)
      ensures task.state == TS_READY ==>
        var rest := RemoveAt(old(taskready), IndexOf(old(taskready), task));
        taskready == InsertAt(rest, EnqueuePos(TaskPris(rest), task.pri), task)
      ensures task.state != TS_READY ==> taskready == old(taskready)
    {
      prev := task.pri;
      var np := Mem.Short(priority);
      Located(task);
      if task.state == TS_READY {
        Requeue(task, np);
      } else {
        task.pri := np;
      }
    }

    /** A ready task takes priority p and is moved to its place in taskready for it. */
    method Requeue(task: Task, p: int)
      requires Valid() && task in taskready
      modifies this`taskready, task`pri
      ensures Valid() && task.pri == p
      ensures var rest := RemoveAt(old(taskready), IndexOf(old(taskready), task));
        taskready == InsertAt(rest, EnqueuePos(TaskPris(rest), p), task)
      ensures forall x :: x in taskready <==> x in old(taskready)
    {
      RemoveReady(task);
      ghost var rest := taskready;
      ghost var pris := TaskPris(rest);
      task.pri := p;
      assert TaskPris(rest) == pris;
      EnqueueReady(task);
      assert TaskPris(rest) == pris;
    }

    /**
     * process_removing, run by the task switched to after `rem` was
     * switched out for the last time: rem becomes TS_REMOVED, and the
     * cleanup task is signalled.
     */
    method ProcessRemoving(rem: Task)
      requires Valid() && rem in taskremoved && rem.state == TS_REMOVING
      requires cleantask != null && Known(cleantask)
      modifies this`taskready, this`taskwait, rem`state, cleantask`sigrecvd, cleantask`state
      ensures Valid() && taskremoved == old(taskremoved)
      ensures rem.state == TS_REMOVED
      ensures cleantask.sigrecvd == old(cleantask.sigrecvd) | SIGF_CLEANUP
    {
      Located(rem);
      rem.state := TS_REMOVED;
      Signal(cleantask, SIGF_CLEANUP);
    }

    /**
     * One pass of the loop of cleanup, run by the cleanup task me: it
     * waits for SIGF_CLEANUP; when that has not arrived it blocks on it
     * and nothing else happens.  When it has, the finished tasks leave
     * taskremoved (Sweep) and the requests for their cleanlist nodes are
     * returned (Dispose).
     */
    method CleanupPass(me: Task) returns (woken: bool, ops: seq<CleanOp>)
      requires Valid() && me in taskready
      modifies this`taskready, this`taskwait, this`taskremoved, me`sigrecvd, me`sigwait, me`state
      modifies taskremoved`cleanlist
      ensures Valid()
      ensures woken <==> Wakes(old(me.sigrecvd), SIGF_CLEANUP)
      ensures !woken ==> (me.state == TS_WAIT && me.sigwait == SIGF_CLEANUP && me in taskwait
        && taskremoved == old(taskremoved) && ops == [])
      ensures woken ==> (me.sigrecvd == Without(old(me.sigrecvd), SIGF_CLEANUP)
        && taskremoved == old(Removing(taskremoved))
        && ops == old(FreeNodes(Cleanlists(Finished(taskremoved)))))
    {
      ghost var rem := taskremoved;
      ghost var keep, nodes := Removing(rem), Cleanlists(Finished(rem));
      ghost var want := FreeNodes(nodes);
      woken := WaitCleanup(me);
      RemovedKept(rem);
      assert FreeNodes(nodes) == want;
      if woken {
        ops := Reap();
      } else {
        ops := [];
      }
    }

    /**
     * The Wait(SIGF_CLEANUP) of a pass of cleanup: it leaves taskremoved,
     * and the states and cleanlists of the tasks on it, alone.
     */
    method WaitCleanup(me: Task) returns (woken: bool)
      requires Valid() && me in taskready
      modifies this`taskready, this`taskwait, me`sigrecvd, me`sigwait, me`state
      ensures Valid() && taskremoved == old(taskremoved)
      ensures forall t :: t in taskremoved ==> t.state == old(t.state) && t.cleanlist == old(t.cleanlist)
      ensures woken <==> Wakes(old(me.sigrecvd), SIGF_CLEANUP)
      ensures !woken ==> me.state == TS_WAIT && me.sigwait == SIGF_CLEANUP && me in taskwait
      ensures woken ==> me.sigrecvd == Without(old(me.sigrecvd), SIGF_CLEANUP)
    {
      Located(me);
      assert me !in taskremoved;
      var matched := WaitStep(me, SIGF_CLEANUP);
      woken := matched != 0;
    }

    /** Sweep then Dispose: a pass of cleanup once it has been woken. */
    method Reap() returns (ops: seq<CleanOp>)
      requires Valid()
      modifies this`taskremoved, taskremoved`cleanlist
      ensures Valid()
      ensures taskremoved == old(Removing(taskremoved))
      ensures ops == old(FreeNodes(Cleanlists(Finished(taskremoved))))
    {
      ghost var fin := Finished(taskremoved);
      ghost var nodes := Cleanlists(fin);
      ghost var want := FreeNodes(nodes);
      var rmtask := Sweep();
      assert Cleanlists(fin) == nodes;
      assert FreeNodes(nodes) == want;
      ops := Clear(rmtask);
    }

    /** Dispose for the tasks Sweep returned, which the kernel's lists no longer hold. */
    method Clear(rmtask: seq<Task>) returns (ops: seq<CleanOp>)
      requires Valid() && Distinct(rmtask)
      modifies rmtask`cleanlist
      ensures Valid() && ops == old(FreeNodes(Cleanlists(rmtask)))
    {
      ops := Dispose(rmtask);
      StatesKept();
    }

    /** The lists are as they were, and so are the states and priorities of their tasks: Valid still holds. */
    twostate lemma {:induction false} StatesKept()
      requires old(Valid()) && unchanged(this)
      requires forall t :: t in taskready || t in taskwait || t in taskremoved ==> unchanged(t`state, t`pri)
      ensures Valid()
    {
      assert forall t :: t in taskready ==> t.state == old(t.state) && t.pri == old(t.pri);
      assert forall t :: t in taskwait || t in taskremoved ==> t.state == old(t.state);
    }

    /**
     * The first half of a pass of the loop of cleanup, after its
     * Wait(SIGF_CLEANUP) has returned, under the task lock: the tasks on
     * taskremoved still TS_REMOVING are put back in order; the others,
     * switched out for the last time, are returned in order and are no
     * longer known to the kernel.
     */
    method Sweep() returns (rmtask: seq<Task>)
      requires Valid()
      modifies this`taskremoved
      ensures Valid()
      ensures taskremoved == old(Removing(taskremoved)) && rmtask == old(Finished(taskremoved))
      ensures Distinct(rmtask) && InState(rmtask, TS_REMOVED, TS_REMOVED)
    {
      var ts := taskremoved;
      var tmplist: seq<Task> := [];
      rmtask := [];
      var i := 0;
      while i < |ts|
        invariant i <= |ts|
        invariant tmplist == Removing(ts[..i]) && rmtask == Finished(ts[..i])
      {
        PartitionStep(ts, i);
        if ts[i].state == TS_REMOVING {
          tmplist := tmplist + [ts[i]];
        } else {
          rmtask := rmtask + [ts[i]];
        }
        i := i + 1;
      }
      assert ts[..i] == ts;
      PartitionCounts(ts);
      taskremoved := tmplist;
    }
  }

  /**
   * The second half of a pass of cleanup, for the tasks Sweep returned:
   * their cleanlists are emptied, and the clean-up requests for all their
   * nodes are returned in order: the tasks in list order, each task's
   * cleanlist from head to tail.
   */
  method Dispose(rmtask: seq<Task>) returns (ops: seq<CleanOp>)
    requires Distinct(rmtask)
    modifies rmtask`cleanlist
    ensures forall i :: 0 <= i < |rmtask| ==> rmtask[i].cleanlist == [] && rmtask[i].state == old(rmtask[i].state)
    ensures ops == old(FreeNodes(Cleanlists(rmtask)))
  {
    var nodes := Gather(rmtask);
    ops := FreeAll(nodes);
  }

  /**
   * The first part of Dispose: every node of every
   * finished task's cleanlist is moved, in order, to one list.
   */
  method Gather(rmtask: seq<Task>) returns (nodes: seq<Node>)
    requires Distinct(rmtask)
    modifies rmtask`cleanlist
    ensures forall i :: 0 <= i < |rmtask| ==> rmtask[i].cleanlist == [] && rmtask[i].state == old(rmtask[i].state)
    ensures nodes == old(Cleanlists(rmtask))
    ensures FreeNodes(nodes) == old(FreeNodes(Cleanlists(rmtask)))
  {
    ghost var freed := FreeNodes(Cleanlists(rmtask));
    nodes := [];
    var i := 0;
    while i < |rmtask|
      invariant i <= |rmtask|
      invariant nodes == old(Cleanlists(rmtask[..i]))
      invariant forall k :: 0 <= k < i ==> rmtask[k].cleanlist == []
      invariant forall k :: i <= k < |rmtask| ==> rmtask[k].cleanlist == old(rmtask[k].cleanlist)
    {
      var task := rmtask[i];
      ghost var before := nodes;
      while task.cleanlist != []
        invariant before + old(task.cleanlist) == nodes + task.cleanlist
        invariant forall k :: 0 <= k < |rmtask| && k != i ==> rmtask[k].cleanlist == old(rmtask[k].cleanlist) || k < i
        invariant forall k :: 0 <= k < i ==> rmtask[k].cleanlist == []
      {
        nodes := nodes + [task.cleanlist[0]];
        task.cleanlist := task.cleanlist[1..];
      }
      assert rmtask[..i + 1][..i] == rmtask[..i];
      i := i + 1;
    }
    assert rmtask[..i] == rmtask;
    assert FreeNodes(nodes) == freed;
  }

  /** The second part of Dispose: freenode on each node, from head to tail. */
  method FreeAll(nodes: seq<Node>) returns (ops: seq<CleanOp>)
    ensures ops == FreeNodes(nodes)
  {
    ops := [];
    var j := 0;
    while j < |nodes|
      invariant j <= |nodes|
      invariant ops == FreeNodes(nodes[..j])
    {
      assert nodes[..j + 1][..j] == nodes[..j];
      ops := ops + FreeNode(nodes[j]);
      j := j + 1;
    }
    assert nodes[..j] == nodes;
  }
}
