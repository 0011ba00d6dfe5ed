/**
 * Message ports (mod/exec/msg.c).
 *
 * A MsgPort is a list of messages and the task and signal bit to notify
 * when one arrives.  A Message carries its node type, which records where
 * it is in the exchange: NT_MESSAGE once sent, NT_REPLYMSG once replied
 * to a reply port, NT_FREEMSG when replied to nobody.  The port's spin
 * lock is not modelled: each locked section is one atomic step.  Where the
 * C code loops around lWait, the model is one pass of the loop.
 */
module Ports {
  import opened Lists
  import opened Tasks
  import Mem

  class Message {
    /** node.type */
    var ntype: int
    var replyport: MsgPort?
    var length: Mem.size_t

    constructor (replyport: MsgPort?, length: Mem.size_t)
      ensures this.ntype == NT_UNKNOWN && this.replyport == replyport && this.length == length
    {
      ntype := NT_UNKNOWN;
      this.replyport := replyport;
      this.length := length;
    }
  }

  class MsgPort {
    /** inv.msglist, head first. */
    var msglist: seq<Message>
    var sigtask: Task?
    var sigbit: int

    constructor (sigtask: Task?, sigbit: int)
      ensures msglist == [] && this.sigtask == sigtask && this.sigbit == sigbit
    {
      msglist := [];
      this.sigtask := sigtask;
      this.sigbit := sigbit;
    }
  }

  /** The port, as a frame: none for NULL. */
  function PortSet(p: MsgPort?): set<MsgPort> {
    if p == null then {} else {p}
  }

  /** The task a put on p signals, as a frame: none for NULL or a port without one. */
  function Listener(p: MsgPort?): set<Task>
    reads p
  {
    if p == null || p.sigtask == null then {} else {p.sigtask}
  }

  /**
   * The invariant the port lock protects: no message is queued twice, the
   * signal bit is a signal number, and every queued message is a sent one
   * (NT_MESSAGE) or a reply to this very port (NT_REPLYMSG).
   */
  predicate PortOk(p: MsgPort)
    reads p, p.msglist
  {
    && Distinct(p.msglist)
    && 0 <= p.sigbit <= SIGNUM_MAX
    && forall m :: m in p.msglist ==> m.ntype == NT_MESSAGE || (m.ntype == NT_REPLYMSG && m.replyport == p)
  }

  /**
   * putit: msg is tagged ntype and appended to the tail of the port's
   * list; then the port's task, if it has one, is signalled with the
   * port's signal bit.
   */
  method PutIt(k: Kernel, port: MsgPort, msg: Message, ntype: int)
    requires k.Valid() && PortOk(port) && msg !in port.msglist
    requires ntype == NT_MESSAGE || (ntype == NT_REPLYMSG && msg.replyport == port)
    requires port.sigtask != null ==> k.Known(port.sigtask)
    modifies msg`ntype, port`msglist, k`taskready, k`taskwait, Listener(port)`sigrecvd, Listener(port)`state
    ensures k.Valid() && PortOk(port)
    ensures msg.ntype == ntype && port.msglist == old(port.msglist) + [msg]
    ensures k.Listed() == old(k.Listed())
    ensures port.sigtask != null ==> port.sigtask.sigrecvd == Grant(old(port.sigtask.sigrecvd), port.sigbit)
    ensures port.sigtask != null && old(port.sigtask.state) == TS_WAIT && Wakes(port.sigtask.sigrecvd, port.sigtask.sigwait) ==>
      port.sigtask.state == TS_READY && port.sigtask in k.taskready
    ensures port.sigtask == null ==> k.taskready == old(k.taskready) && k.taskwait == old(k.taskwait)
  {
    msg.ntype := ntype;
    port.msglist := port.msglist + [msg];
    if port.sigtask != null {
      k.Signal(port.sigtask, Bit(port.sigbit));
    }
  }

  /** iPutMsg: putit with NT_MESSAGE. */
  method PutMsg(k: Kernel, port: MsgPort, msg: Message)
    requires k.Valid() && PortOk(port) && msg !in port.msglist
    requires port.sigtask != null ==> k.Known(port.sigtask)
    modifies msg`ntype, port`msglist, k`taskready, k`taskwait, Listener(port)`sigrecvd, Listener(port)`state
    ensures k.Valid() && PortOk(port)
    ensures msg.ntype == NT_MESSAGE && port.msglist == old(port.msglist) + [msg]
    ensures k.Listed() == old(k.Listed())
    ensures port.sigtask != null ==> port.sigtask.sigrecvd == Grant(old(port.sigtask.sigrecvd), port.sigbit)
    ensures port.sigtask != null && old(port.sigtask.state) == TS_WAIT && Wakes(port.sigtask.sigrecvd, port.sigtask.sigwait) ==>
      port.sigtask.state == TS_READY && port.sigtask in k.taskready
  {
    PutIt(k, port, msg, NT_MESSAGE);
  }

  /** iGetMsg: the head of the list is removed and returned; NULL for an empty list. */
  method GetMsg(port: MsgPort) returns (msg: Message?)
    requires PortOk(port)
    modifies port`msglist
    ensures PortOk(port)
    ensures old(port.msglist) == [] ==> msg == null && port.msglist == []
    ensures old(port.msglist) != [] ==> msg == old(port.msglist)[0] && port.msglist == old(port.msglist)[1..]
  {
    if port.msglist == [] {
      return null;
    }
    msg := port.msglist[0];
    RemoveAtDistinct(port.msglist, 0);
    assert RemoveAt(port.msglist, 0) == port.msglist[1..];
    port.msglist := port.msglist[1..];
  }

  /**
   * iReplyMsg: a message without a reply port is tagged NT_FREEMSG and 0
   * is returned; otherwise it is put on its reply port as NT_REPLYMSG and
   * 1 is returned.
   */
  method ReplyMsg(k: Kernel, msg: Message) returns (r: int)
    requires k.Valid()
    requires msg.replyport != null ==> PortOk(msg.replyport) && msg !in msg.replyport.msglist
    requires msg.replyport != null && msg.replyport.sigtask != null ==> k.Known(msg.replyport.sigtask)
    modifies msg`ntype, PortSet(msg.replyport)`msglist, k`taskready, k`taskwait
    modifies Listener(msg.replyport)`sigrecvd, Listener(msg.replyport)`state
    ensures k.Valid() && k.Listed() == old(k.Listed())
    ensures msg.replyport == null ==>
      r == 0 && msg.ntype == NT_FREEMSG && k.taskready == old(k.taskready) && k.taskwait == old(k.taskwait)
    ensures msg.replyport != null ==>
      && r == 1 && msg.ntype == NT_REPLYMSG && PortOk(msg.replyport)
      && msg.replyport.msglist == old(msg.replyport.msglist) + [msg]
    ensures msg.replyport != null && msg.replyport.sigtask != null ==>
      msg.replyport.sigtask.sigrecvd == Grant(old(msg.replyport.sigtask.sigrecvd), msg.replyport.sigbit)
  {
    var port := msg.replyport;
    if port == null {
      msg.ntype := NT_FREEMSG;
      return 0;
    }
    PutIt(k, port, msg, NT_REPLYMSG);
    return 1;
  }

  /**
   * One pass of the loop of iWaitPort, called by the running task me.  A
   * non-empty port's head is returned and stays queued; for an empty port
   * NULL is returned after me has waited for the port's signal: a pending
   * signal is consumed, else me blocks.
   */
  method WaitPortStep(k: Kernel, me: Task, port: MsgPort) returns (msg: Message?)
    requires k.Valid() && me in k.taskready && PortOk(port)
    modifies k`taskready, k`taskwait, me`sigrecvd, me`sigwait, me`state
    ensures k.Valid()
    ensures msg != null <==> port.msglist != []
    ensures msg != null ==>
      && msg == port.msglist[0] && me.sigrecvd == old(me.sigrecvd) && me.sigwait == old(me.sigwait)
      && me.state == TS_READY && k.taskready == old(k.taskready) && k.taskwait == old(k.taskwait)
    ensures msg == null && Taken(old(me.sigrecvd), port.sigbit) ==>
      && me.sigrecvd == Revoke(old(me.sigrecvd), port.sigbit) && me.state == TS_READY
      && k.taskready == old(k.taskready) && k.taskwait == old(k.taskwait)
    ensures msg == null && !Taken(old(me.sigrecvd), port.sigbit) ==>
      && me.state == TS_WAIT && me.sigwait == Bit(port.sigbit)
      && k.taskready == RemoveAt(old(k.taskready), IndexOf(old(k.taskready), me))
      && k.taskwait == old(k.taskwait) + [me]
  {
    k.Located(me);
    if port.msglist != [] {
      return port.msglist[0];
    }
    WaitSignal(k, me, port.sigbit);
    return null;
  }

  /**
   * One pass of lWait(1U << n) by the running task me: a pending signal n
   * is consumed and me stays ready; otherwise me blocks waiting for it.
   */
  method WaitSignal(k: Kernel, me: Task, n: nat)
    requires k.Valid() && me in k.taskready && n <= SIGNUM_MAX
    modifies k`taskready, k`taskwait, me`sigrecvd, me`sigwait, me`state
    ensures k.Valid()
    ensures Taken(old(me.sigrecvd), n) ==>
      && me.sigrecvd == Revoke(old(me.sigrecvd), n) && me.state == TS_READY
      && k.taskready == old(k.taskready) && k.taskwait == old(k.taskwait)
    ensures !Taken(old(me.sigrecvd), n) ==>
      && me.sigrecvd == old(me.sigrecvd) && me.state == TS_WAIT && me.sigwait == Bit(n)
      && k.taskready == RemoveAt(old(k.taskready), IndexOf(old(k.taskready), me))
      && k.taskwait == old(k.taskwait) + [me]
  {
    k.Located(me);
    var _ := k.WaitStep(me, Bit(n));
  }

  /**
   * One pass of the loop of iWaitMsg, called by the running task me for a
   * message it sent.  A replied message (NT_REPLYMSG), which the port
   * invariant keeps on its reply port, is removed from that port and the
   * wait is done; otherwise me waits for the reply port's signal.
   */
  method WaitMsgStep(k: Kernel, me: Task, msg: Message) returns (done: bool)
    requires k.Valid() && me in k.taskready
    requires msg.replyport != null && PortOk(msg.replyport)
    requires msg.ntype == NT_REPLYMSG ==> msg in msg.replyport.msglist
    modifies msg.replyport`msglist, k`taskready, k`taskwait, me`sigrecvd, me`sigwait, me`state
    ensures k.Valid() && PortOk(msg.replyport)
    ensures done <==> msg.ntype == NT_REPLYMSG
    ensures done ==>
      && msg.replyport.msglist == RemoveAt(old(msg.replyport.msglist), IndexOf(old(msg.replyport.msglist), msg))
      && msg !in msg.replyport.msglist
      && me.sigrecvd == old(me.sigrecvd) && me.state == TS_READY
      && k.taskready == old(k.taskready) && k.taskwait == old(k.taskwait)
    ensures !done ==> msg.replyport.msglist == old(msg.replyport.msglist)
    ensures !done && Taken(old(me.sigrecvd), msg.replyport.sigbit) ==>
      me.sigrecvd == Revoke(old(me.sigrecvd), msg.replyport.sigbit) && me.state == TS_READY
    ensures !done && !Taken(old(me.sigrecvd), msg.replyport.sigbit) ==>
      me.state == TS_WAIT && me.sigwait == Bit(msg.replyport.sigbit) && k.taskwait == old(k.taskwait) + [me]
  {
    var port := msg.replyport;
    k.Located(me);
    if msg.ntype == NT_REPLYMSG {
      var i := IndexOf(port.msglist, msg);
      RemoveAtDistinct(port.msglist, i);
      RemoveKept(port.msglist, i);
      port.msglist := RemoveAt(port.msglist, i);
      return true;
    }
    WaitSignal(k, me, port.sigbit);
    return false;
  }

  /** Every element left by RemoveAt was in the sequence. */
  lemma {:induction false} RemoveKept<T>(s: seq<T>, i: nat)
    requires i < |s|
    ensures forall x :: x in RemoveAt(s, i) ==> x in s
  {
    forall x | x in RemoveAt(s, i) ensures x in s {
      var j :| 0 <= j < |RemoveAt(s, i)| && RemoveAt(s, i)[j] == x;
      assert x == if j < i then s[j] else s[j + 1];
    }
  }

  /**
   * The receiver's side of mod/test/exec/msg0.c: the message at the head
   * of the port is taken off, its length incremented (modulo 2^32, as
   * size_t) and replied to its reply port.
   */
  method Serve(k: Kernel, port: MsgPort, msg: Message)
    requires k.Valid() && PortOk(port) && port.msglist == [msg]
    requires msg.replyport != null && msg.replyport != port && PortOk(msg.replyport) && msg !in msg.replyport.msglist
    requires msg.replyport.sigtask != null ==> k.Known(msg.replyport.sigtask)
    modifies msg`ntype, msg`length, port`msglist, msg.replyport`msglist, k`taskready, k`taskwait
    modifies Listener(msg.replyport)`sigrecvd, Listener(msg.replyport)`state
    ensures k.Valid() && port.msglist == [] && PortOk(msg.replyport)
    ensures msg.ntype == NT_REPLYMSG && msg.length == (old(msg.length) + 1) % Mem.WORD
    ensures msg.replyport.msglist == old(msg.replyport.msglist) + [msg]
  {
    var m := GetMsg(port);
    m.length := (m.length + 1) % Mem.WORD;
    var ret := ReplyMsg(k, m);
  }

  /**
   * One round of the exchange of mod/test/exec/msg0.c: msg is put on p0
   * and served; it then comes back off its reply port p1, tagged
   * NT_REPLYMSG and one longer, and both ports are empty again.
   */
  method Exchange(k: Kernel, p0: MsgPort, p1: MsgPort, msg: Message) returns (rmsg: Message?)
    requires p0 != p1 && k.Valid() && PortOk(p0) && PortOk(p1)
    requires p0.msglist == [] && p1.msglist == [] && msg.replyport == p1
    requires p0.sigtask != null ==> k.Known(p0.sigtask)
    requires p1.sigtask != null ==> k.Known(p1.sigtask)
    modifies msg`ntype, msg`length, p0`msglist, p1`msglist, k`taskready, k`taskwait
    modifies Listener(p0)`sigrecvd, Listener(p0)`state, Listener(p1)`sigrecvd, Listener(p1)`state
    ensures rmsg == msg && msg.ntype == NT_REPLYMSG && msg.length == (old(msg.length) + 1) % Mem.WORD
    ensures p0.msglist == [] && p1.msglist == [] && k.Valid()
  {
    ghost var listed := k.Listed();
    PutMsg(k, p0, msg);
    assert p1.sigtask != null ==> p1.sigtask in listed;
    Serve(k, p0, msg);
    rmsg := GetMsg(p1);
  }
}
