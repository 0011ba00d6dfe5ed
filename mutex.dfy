/**
 * The kernel mutex of mod/exec/mutex.c: an owner task, a nesting count and
 * a FIFO queue of waiting tasks.
 *
 * MutexState is the mutex as a value, and Obtain and Release are what one
 * call does to it; the class Mutex holds the same three fields and its
 * methods follow the C code, calling the kernel's Signal and one pass of
 * its Wait loop (Tasks.Kernel.WaitStep) where the C code calls lSignal and
 * lWait.  The spin lock ctx->lock is not modelled: each locked section is
 * one atomic step.
 */
module Mutexes {
  import opened Lists
  import opened Tasks

  /** owner (null when the mutex is free), nest and the waitqueue's tasks, head first. */
  datatype MutexState = MutexState(owner: Task?, nest: int, queue: seq<Task>)

  /** What iObtainMut did for its caller. */
  datatype Obtained = Took | Nested | Queued

  /** The free mutex iInitMutex sets up. */
  const Free := MutexState(null, 0, [])

  /**
   * The invariant the KASSERTs of mutex.c rely on: a free mutex has no
   * nesting and nobody waiting, and no task waits twice or waits for a
   * mutex it owns.
   */
  predicate Sound(s: MutexState) {
    && s.nest >= 0
    && (s.owner == null ==> s.nest == 0 && s.queue == [])
    && Distinct(s.queue)
    && (s.owner != null ==> s.owner !in s.queue)
  }

  /**
   * iObtainMut by task me: a free mutex is taken, one me already owns is
   * nested once more, and otherwise me joins the tail of the waitqueue.
   */
  function Obtain(s: MutexState, me: Task): (r: (MutexState, Obtained))
    ensures r.0.owner == me || me in r.0.queue
    ensures r.1 == Queued <==> r.0.queue != s.queue
    ensures r.0.queue == s.queue || r.0.queue == s.queue + [me]
  {
    if s.owner == null then (s.(owner := me), Took)
    else if s.owner == me then (s.(nest := s.nest + 1), Nested)
    else (s.(queue := s.queue + [me]), Queued)
  }

  /**
   * iReleaseMut by the owner: a nested mutex is un-nested once; otherwise
   * ownership passes to the head of the waitqueue, who is returned to be
   * signalled, or the mutex becomes free.
   */
  function Release(s: MutexState): (r: (MutexState, Task?))
    ensures r.1 != null ==> r.0.owner == r.1 && r.0.nest == 0 && s.queue == [r.1] + r.0.queue
    ensures r.1 == null ==> r.0.queue == s.queue
  {
    if s.nest != 0 then (s.(nest := s.nest - 1), null)
    else if s.queue == [] then (Free, null)
    else (MutexState(s.queue[0], 0, s.queue[1..]), s.queue[0])
  }

  /** Obtain keeps a mutex sound when the caller is not already waiting for it. */
  lemma {:induction false} ObtainSound(s: MutexState, me: Task)
    requires Sound(s) && me !in s.queue
    ensures Sound(Obtain(s, me).0)
  {
    if s.owner != null && s.owner != me {
      var q := s.queue + [me];
      forall i, j | 0 <= i < j < |q| ensures q[i] != q[j] {
        if j == |s.queue| {
          assert q[i] == s.queue[i];
        }
      }
      assert forall x :: x in q <==> x in s.queue || x == me;
    }
  }

  /** Release keeps a mutex sound. */
  lemma {:induction false} ReleaseSound(s: MutexState)
    requires Sound(s) && s.owner != null
    ensures Sound(Release(s).0)
  {
    if s.nest == 0 && s.queue != [] {
      var q := s.queue[1..];
      assert forall i :: 0 <= i < |q| ==> q[i] == s.queue[i + 1];
      assert s.queue[0] !in q;
    }
  }

  /** The state after n releases by whoever owns the mutex at the time. */
  function ReleaseN(s: MutexState, n: nat): MutexState
    decreases n
  {
    if n == 0 then s else ReleaseN(Release(s).0, n - 1)
  }

  /**
   * Waiters are served in FIFO order: once the owner has stopped nesting,
   * the i-th release hands the mutex to the i-th waiter, un-nested, and
   * leaves the waiters behind it queued in order.
   */
  lemma {:induction false} ServedInOrder(s: MutexState, n: nat)
    requires s.nest == 0 && 1 <= n <= |s.queue|
    ensures ReleaseN(s, n) == MutexState(s.queue[n - 1], 0, s.queue[n..])
    decreases n
  {
    var s1 := Release(s).0;
    assert s1 == MutexState(s.queue[0], 0, s.queue[1..]);
    if n > 1 {
      ServedInOrder(s1, n - 1);
      assert s1.queue[n - 2] == s.queue[n - 1] && s1.queue[n - 1..] == s.queue[n..];
    }
  }

  /** The owner's nested Obtain is undone by its Release. */
  lemma {:induction false} NestRoundTrip(s: MutexState)
    requires Sound(s) && s.owner != null
    ensures Obtain(s, s.owner).1 == Nested
    ensures Release(Obtain(s, s.owner).0) == (s, null)
  {
  }

  /** Taking a free mutex and giving it back leaves it free. */
  lemma {:induction false} TakeRoundTrip(me: Task)
    ensures Obtain(Free, me) == (MutexState(me, 0, []), Took)
    ensures Release(Obtain(Free, me).0) == (Free, null)
  {
  }

  class Mutex {
    var owner: Task?
    var nest: int
    var waitqueue: seq<Task>

    function State(): MutexState
      reads this
    {
      MutexState(owner, nest, waitqueue)
    }

    /** iInitMutex: empty waitqueue, nest 0, no owner. */
    constructor ()
      ensures State() == Free && Sound(State())
    {
      owner := null;
      nest := 0;
      waitqueue := [];
    }

    /**
     * iObtainMut, called by the running task me.  The first locked
     * section takes a free mutex.  Otherwise SIGF_SINGLE is cleared and
     * the second locked section takes the mutex if it has meanwhile
     * become free, nests it if me owns it, or queues me; a queued me
     * then blocks in Wait(SIGF_SINGLE) until ReleaseMut hands it the
     * mutex.
     */
    method ObtainMut(k: Kernel, me: Task) returns (outcome: Obtained)
      requires Sound(State()) && me !in waitqueue
      requires k.Valid() && me in k.taskready
      modifies this, k`taskready, k`taskwait, me`sigrecvd, me`sigwait, me`state
      ensures (State(), outcome) == Obtain(old(State()), me) && Sound(State())
      ensures k.Valid()
      ensures outcome == Took ==> me.sigrecvd == old(me.sigrecvd)
      ensures outcome != Took ==> me.sigrecvd == Without(old(me.sigrecvd), SIGF_SINGLE)
      ensures outcome == Queued ==>
        && me.state == TS_WAIT && me.sigwait == SIGF_SINGLE
        && k.taskready == RemoveAt(old(k.taskready), IndexOf(old(k.taskready), me))
        && k.taskwait == old(k.taskwait) + [me]
      ensures outcome != Queued ==>
        && me.state == old(me.state) && me.sigwait == old(me.sigwait)
        && k.taskready == old(k.taskready) && k.taskwait == old(k.taskwait)
    {
      ObtainSound(State(), me);
      var previous := owner;
      if previous == null {
        owner := me;
        return Took;
      }
      outcome := Contend(k, me);
    }

    /**
     * The second locked section of iObtainMut, after SIGF_SINGLE has been
     * cleared.  It re-tests the owner because, in the C code, the mutex
     * may have been released since the first test.
     */
    method Contend(k: Kernel, me: Task) returns (outcome: Obtained)
      requires me !in waitqueue
      requires k.Valid() && me in k.taskready
      modifies this, k`taskready, k`taskwait, me`sigrecvd, me`sigwait, me`state
      ensures (State(), outcome) == Obtain(old(State()), me)
      ensures k.Valid()
      ensures me.sigrecvd == Without(old(me.sigrecvd), SIGF_SINGLE)
      ensures outcome == Queued ==>
        && me.state == TS_WAIT && me.sigwait == SIGF_SINGLE
        && k.taskready == RemoveAt(old(k.taskready), IndexOf(old(k.taskready), me))
        && k.taskwait == old(k.taskwait) + [me]
      ensures outcome != Queued ==>
        && me.state == old(me.state) && me.sigwait == old(me.sigwait)
        && k.taskready == old(k.taskready) && k.taskwait == old(k.taskwait)
    {
      var _ := me.ClearSignal(SIGF_SINGLE);
      if owner == null {
        owner := me;
        return Took;
      }
      if owner == me {
        nest := nest + 1;
        return Nested;
      }
      Enlist(k, me);
      return Queued;
    }

    /**
     * me joins the tail of the waitqueue and waits for SIGF_SINGLE, which
     * it has just cleared: it blocks.
     */
    method Enlist(k: Kernel, me: Task)
      requires k.Valid() && me in k.taskready && me.sigrecvd & SIGF_SINGLE == 0
      modifies this`waitqueue, k`taskready, k`taskwait, me`sigwait, me`state, me`sigrecvd
      ensures waitqueue == old(waitqueue) + [me]
      ensures k.Valid() && me.sigrecvd == old(me.sigrecvd)
      ensures me.state == TS_WAIT && me.sigwait == SIGF_SINGLE
      ensures k.taskready == RemoveAt(old(k.taskready), IndexOf(old(k.taskready), me))
      ensures k.taskwait == old(k.taskwait) + [me]
    {
      waitqueue := waitqueue + [me];
      var matched := k.WaitStep(me, SIGF_SINGLE);
    }

    /**
     * iReleaseMut, called by the owner me.  A nested mutex is un-nested.
     * Otherwise the head waiter, if any, is dequeued and made owner under
     * the lock, and then signalled with SIGF_SINGLE; with no waiter the
     * mutex becomes free.  The woken task resumes in ObtainMut as owner
     * with nest 0.
     */
    method ReleaseMut(k: Kernel, me: Task) returns (sigtask: Task?)
      requires Sound(State()) && owner == me
      requires k.Valid() && forall t :: t in waitqueue ==> k.Known(t)
      modifies this, k`taskready, k`taskwait, waitqueue`sigrecvd, waitqueue`state
      ensures (State(), sigtask) == Release(old(State())) && Sound(State())
      ensures k.Valid()
      ensures sigtask == null ==> k.taskready == old(k.taskready) && k.taskwait == old(k.taskwait)
      ensures sigtask != null ==> sigtask.sigrecvd == old(sigtask.sigrecvd) | SIGF_SINGLE
      ensures sigtask != null && old(sigtask.state) == TS_WAIT && Wakes(sigtask.sigrecvd, sigtask.sigwait) ==>
        sigtask.state == TS_READY && sigtask in k.taskready
    {
      ReleaseSound(State());
      if nest != 0 {
        nest := nest - 1;
        return null;
      }
      sigtask := null;
      if waitqueue != [] {
        sigtask := waitqueue[0];
        waitqueue := waitqueue[1..];
      }
      owner := sigtask;
      if sigtask != null {
        k.Signal(sigtask, SIGF_SINGLE);
      }
    }
  }

  /**
   * The bootstrap iObtainMutex and iReleaseMutex that init code calls
   * before the first task installs the real pair: they change nothing.
   */
  method BootstrapObtain(m: Mutex)
    ensures m.State() == old(m.State())
  {
  }

  method BootstrapRelease(m: Mutex)
    ensures m.State() == old(m.State())
  {
  }
}
