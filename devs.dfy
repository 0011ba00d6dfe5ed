/**
 * Devices and I/O requests (mod/exec/dev.c).
 *
 * A device is a Library on devlist (iAddDevice and iRemDevice are
 * LibList.Enqueue and LibList.RemLib on that list).  An IORequest is a
 * Message with the device, the flags, the command and the error.  What a
 * device's own entries do (Open, Close, BeginIO) is not part of this
 * module: the outcome exec relies on is a parameter, and a device's
 * BeginIO is described by Begun.
 */
module Devices {
  import opened Wrappers
  import opened Lists
  import opened Tasks
  import opened Ports
  import opened Libraries
  import Memory

  /** IORequest flags bit: the caller can take a reply in place (DoIO). */
  const IOF_QUICK := 1

  const CMD_INVALID := 0
  const CMD_RESET := 1
  const CMD_READ := 2
  const CMD_WRITE := 3
  const CMD_UPDATE := 4
  const CMD_CLEAR := 5
  const CMD_STOP := 6
  const CMD_START := 7
  const CMD_FLUSH := 8
  const CMD_FOR_API := 64
  const CMD_FOR_IMPL := 128

  const IOERR_OK := 0
  const IOERR_OPENFAIL := 1
  const IOERR_ABORTED := 2
  const IOERR_NOCMD := 3
  const IOERR_UNITBUSY := 4
  const IOERR_NOTFOUND := 5
  const IOERR_INVALIDUNIT := 6

  class IORequest {
    const message: Message
    var device: Library?
    var flags: int
    var command: int
    var error: int

    /** A request in cleared memory around its message. */
    constructor (message: Message)
      ensures this.message == message && device == null && flags == 0 && command == 0 && error == 0
    {
      this.message := message;
      device := null;
      flags := 0;
      command := 0;
      error := 0;
    }
  }

  /**
   * iOpenDevice: the first device on devlist with the name gets one more
   * opener and its Open entry runs, which leaves openerr in ior->error.
   * With IOERR_OK a delayed expunge is cleared; otherwise the open is
   * undone as LibList.DropOpen states.  A name not found gives
   * IOERR_NOTFOUND and a NULL device.  The result is ior->error.
   */
  method OpenDevice(devlist: LibList, mem: Memory.MemoryList, name: string, ior: IORequest, openerr: int, seg: bool)
    returns (err: int)
    requires devlist.Valid() && NUL !in name && devlist.NamesOk() && mem.Valid()
    requires forall d :: d in devlist.libs ==> Expungeable(mem.regions, d)
    modifies ior`device, ior`error, devlist`libs, devlist.libs`opencount, devlist.libs`flags, mem`regions, mem.headers
    ensures devlist.Valid() && mem.Valid() && mem.headers == old(mem.headers)
    ensures err == ior.error
    ensures old(FindIndex(LibNames(devlist.libs), name)).None? ==>
      && err == IOERR_NOTFOUND && ior.device == null
      && devlist.libs == old(devlist.libs) && mem.regions == old(mem.regions)
    ensures old(FindIndex(LibNames(devlist.libs), name)).Some? ==>
      var d := old(devlist.libs)[old(FindIndex(LibNames(devlist.libs), name)).value];
      && ior.device == d && err == openerr
      && (openerr == IOERR_OK ==>
            && d.opencount == old(d.opencount) + 1 && d.flags == Clear0(old(d.flags))
            && devlist.libs == old(devlist.libs) && mem.regions == old(mem.regions))
      && (openerr != IOERR_OK ==>
            && d.opencount == old(d.opencount) && d.flags == old(d.flags)
            && (if d.opencount == 0 && Bit0(d.flags)
                then devlist.libs == RemoveAt(old(devlist.libs), IndexOf(old(devlist.libs), d))
                  && mem.regions == Expunged(old(mem.regions), d, seg)
                else devlist.libs == old(devlist.libs) && mem.regions == old(mem.regions)))
  {
    ghost var names := LibNames(devlist.libs);
    var i := devlist.FindFrom(name, 0);
    if i.None? {
      assert FindIndex(names, name).None?;
      ior.device := null;
      ior.error := IOERR_NOTFOUND;
      return IOERR_NOTFOUND;
    }
    assert FindIndex(names, name) == i;
    err := Opened(devlist, mem, devlist.libs[i.value], ior, openerr, seg);
  }

  /**
   * The rest of iOpenDevice once device d is found: it is recorded in the
   * request, its Open entry leaves openerr in ior->error, and the open is
   * kept or undone as LibList.Attach states.
   */
  method Opened(devlist: LibList, mem: Memory.MemoryList, d: Library, ior: IORequest, openerr: int, seg: bool)
    returns (err: int)
    requires devlist.Valid() && d in devlist.libs && mem.Valid() && Expungeable(mem.regions, d)
    modifies ior`device, ior`error, devlist`libs, d`opencount, d`flags, mem`regions, mem.headers
    ensures devlist.Valid() && mem.Valid() && mem.headers == old(mem.headers)
    ensures ior.device == d && err == ior.error == openerr
    ensures openerr == IOERR_OK ==>
      && d.opencount == old(d.opencount) + 1 && d.flags == Clear0(old(d.flags))
      && devlist.libs == old(devlist.libs) && mem.regions == old(mem.regions)
    ensures openerr != IOERR_OK ==>
      && d.opencount == old(d.opencount) && d.flags == old(d.flags)
      && (if d.opencount == 0 && Bit0(d.flags)
          then devlist.libs == RemoveAt(old(devlist.libs), IndexOf(old(devlist.libs), d))
            && mem.regions == Expunged(old(mem.regions), d, seg)
          else devlist.libs == old(devlist.libs) && mem.regions == old(mem.regions))
  {
    ior.device := d;
    ior.error := IOERR_OK;
    ior.error := openerr;
    var _ := devlist.Attach(mem, d, ior.error == IOERR_OK, seg);
    return ior.error;
  }

  /** iCloseDevice: the device's Close entry runs, then LibList.DropOpen. */
  method CloseDevice(devlist: LibList, mem: Memory.MemoryList, ior: IORequest, seg: bool) returns (expunged: bool)
    requires ior.device != null && devlist.Valid() && ior.device in devlist.libs
    requires mem.Valid() && Expungeable(mem.regions, ior.device)
    modifies devlist`libs, ior.device`opencount, mem`regions, mem.headers
    ensures devlist.Valid() && mem.Valid() && mem.headers == old(mem.headers)
    ensures ior.device.opencount == old(ior.device.opencount) - 1
    ensures expunged <==> ior.device.opencount == 0 && Bit0(ior.device.flags)
    ensures expunged ==>
      && devlist.libs == RemoveAt(old(devlist.libs), IndexOf(old(devlist.libs), ior.device))
      && mem.regions == Expunged(old(mem.regions), ior.device, seg)
    ensures !expunged ==> devlist.libs == old(devlist.libs) && mem.regions == old(mem.regions)
  {
    var d := ior.device;
    expunged := devlist.DropOpen(mem, d, seg);
  }

  /**
   * What a device's BeginIO does with a request, as exec relies on it: it
   * tags the message NT_MESSAGE and then either completes the request at
   * once with an error code, or queues it, clearing IOF_QUICK, to reply
   * to it later.
   */
  datatype Begun = Completed(error: int) | Queued

  /** The messages on port p, as a frame: none for NULL. */
  function OnPort(p: MsgPort?): set<Message>
    reads p
  {
    if p == null then {} else set m | m in p.msglist
  }

  /** The reply port of a request can take its reply: ReplyMsg's precondition. */
  ghost predicate Replyable(k: Kernel, ior: IORequest)
    reads k, ior, ior.message, ior.message.replyport, OnPort(ior.message.replyport)
  {
    ior.message.replyport != null ==>
      && PortOk(ior.message.replyport) && ior.message !in ior.message.replyport.msglist
      && (ior.message.replyport.sigtask != null ==> k.Known(ior.message.replyport.sigtask))
  }

  /**
   * The start of every BeginIO: the message is tagged NT_MESSAGE, so that
   * it is NT_REPLYMSG on return only once replied, and the error reset.
   * The message is on no port, so its reply port stays sound.
   */
  method Tag(ior: IORequest)
    requires ior.message.replyport != null ==>
      PortOk(ior.message.replyport) && ior.message !in ior.message.replyport.msglist
    modifies ior`error, ior.message`ntype
    ensures ior.message.ntype == NT_MESSAGE && ior.error == IOERR_OK
    ensures ior.message.replyport != null ==>
      PortOk(ior.message.replyport) && ior.message !in ior.message.replyport.msglist
  {
    ior.message.ntype := NT_MESSAGE;
    ior.error := IOERR_OK;
  }

  /**
   * A device's BeginIO, as described by b: a request completed without
   * IOF_QUICK is replied to at once (iReplyMsg); one completed with
   * IOF_QUICK stays with the caller, NT_MESSAGE; a queued one loses
   * IOF_QUICK and stays NT_MESSAGE until the device replies.
   */
  method BeginIO(k: Kernel, ior: IORequest, b: Begun)
    requires k.Valid() && Replyable(k, ior)
    modifies ior`flags, ior`error, ior.message`ntype, PortSet(ior.message.replyport)`msglist
    modifies k`taskready, k`taskwait, Listener(ior.message.replyport)`sigrecvd, Listener(ior.message.replyport)`state
    ensures k.Valid() && k.Listed() == old(k.Listed())
    ensures b.Queued? ==>
      && ior.flags == Clear0(old(ior.flags)) && ior.error == IOERR_OK && ior.message.ntype == NT_MESSAGE
      && k.taskready == old(k.taskready) && k.taskwait == old(k.taskwait)
    ensures b.Completed? ==> ior.flags == old(ior.flags) && ior.error == b.error
    ensures b.Completed? && Bit0(ior.flags) ==>
      && ior.message.ntype == NT_MESSAGE && k.taskready == old(k.taskready) && k.taskwait == old(k.taskwait)
    ensures b.Completed? && !Bit0(ior.flags) && ior.message.replyport != null ==>
      && ior.message.ntype == NT_REPLYMSG && PortOk(ior.message.replyport)
      && ior.message.replyport.msglist == old(ior.message.replyport.msglist) + [ior.message]
    ensures b.Completed? && !Bit0(ior.flags) && ior.message.replyport == null ==> ior.message.ntype == NT_FREEMSG
    ensures ior.message.replyport != null ==> PortOk(ior.message.replyport)
    ensures (b.Queued? || Bit0(ior.flags)) && ior.message.replyport != null ==> ior.message.replyport.msglist == old(ior.message.replyport.msglist)
  {
    Tag(ior);
    match b
    case Queued =>
      ior.flags := Clear0(ior.flags);
    case Completed(e) =>
      ior.error := e;
      if !Bit0(ior.flags) {
        var _ := Ports.ReplyMsg(k, ior.message);
      }
  }

  /**
   * iCheckIO: 1 when the request is done, that is IOF_QUICK is set (it
   * was completed in place) or the message has been replied; else 0.
   */
  function CheckIO(ior: IORequest): (r: int)
    reads ior, ior.message
    ensures r == 0 || r == 1
    ensures r == 1 <==> Bit0(ior.flags) || ior.message.ntype == NT_REPLYMSG
  {
    if Bit0(ior.flags) then 1
    else if ior.message.ntype == NT_REPLYMSG then 1 else 0
  }

  /**
   * One pass of iWaitIO, by the running task me: a request with IOF_QUICK
   * gives its error at once; otherwise it is one pass of iWaitMsg, which
   * gives the error once the reply has been taken off the reply port, and
   * None when me has had to wait for it.
   */
  method WaitIOStep(k: Kernel, me: Task, ior: IORequest) returns (r: Option<int>)
    requires k.Valid() && me in k.taskready
    requires ior.message.replyport != null && PortOk(ior.message.replyport)
    requires ior.message.ntype == NT_REPLYMSG ==> ior.message in ior.message.replyport.msglist
    modifies ior.message.replyport`msglist, k`taskready, k`taskwait, me`sigrecvd, me`sigwait, me`state
    ensures k.Valid() && PortOk(ior.message.replyport)
    ensures Bit0(ior.flags) ==>
      r == Some(ior.error) && ior.message.replyport.msglist == old(ior.message.replyport.msglist)
      && k.taskready == old(k.taskready) && k.taskwait == old(k.taskwait) && me.sigrecvd == old(me.sigrecvd)
    ensures !Bit0(ior.flags) ==> (r.Some? <==> ior.message.ntype == NT_REPLYMSG)
    ensures !Bit0(ior.flags) && r.Some? ==>
      && r.value == ior.error && ior.message !in ior.message.replyport.msglist
      && ior.message.replyport.msglist == RemoveAt(old(ior.message.replyport.msglist), IndexOf(old(ior.message.replyport.msglist), ior.message))
      && k.taskready == old(k.taskready) && k.taskwait == old(k.taskwait) && me.state == TS_READY
    ensures !Bit0(ior.flags) && r.None? ==> ior.message.replyport.msglist == old(ior.message.replyport.msglist)
    ensures !Bit0(ior.flags) && r.None? && Taken(old(me.sigrecvd), ior.message.replyport.sigbit) ==>
      me.sigrecvd == Revoke(old(me.sigrecvd), ior.message.replyport.sigbit) && me.state == TS_READY
    ensures !Bit0(ior.flags) && r.None? && !Taken(old(me.sigrecvd), ior.message.replyport.sigbit) ==>
      && me.state == TS_WAIT && me.sigwait == Bit(ior.message.replyport.sigbit)
      && k.taskwait == old(k.taskwait) + [me]
  {
    if Bit0(ior.flags) {
      return Some(ior.error);
    }
    var done := WaitMsgStep(k, me, ior.message);
    if done {
      return Some(ior.error);
    }
    return None;
  }

  /**
   * iSendIO: IOF_QUICK is cleared and the device's BeginIO runs, so a
   * request the device completes at once is replied to its port.
   */
  method SendIO(k: Kernel, ior: IORequest, b: Begun)
    requires k.Valid() && Replyable(k, ior)
    modifies ior`flags, ior`error, ior.message`ntype, PortSet(ior.message.replyport)`msglist
    modifies k`taskready, k`taskwait, Listener(ior.message.replyport)`sigrecvd, Listener(ior.message.replyport)`state
    ensures k.Valid() && k.Listed() == old(k.Listed()) && !Bit0(ior.flags)
    ensures b.Queued? ==> ior.message.ntype == NT_MESSAGE && CheckIO(ior) == 0
    ensures b.Completed? ==> ior.error == b.error
    ensures b.Completed? && ior.message.replyport != null ==>
      && CheckIO(ior) == 1 && PortOk(ior.message.replyport)
      && ior.message.replyport.msglist == old(ior.message.replyport.msglist) + [ior.message]
  {
    ior.flags := Clear0(ior.flags);
    BeginIO(k, ior, b);
  }

  /**
   * iDoIO by the running task me: IOF_QUICK is set, the device's BeginIO
   * runs, and then one pass of iWaitIO.  A request the device completes
   * in place gives its error with nothing queued and nobody signalled; a
   * queued one makes me wait for the reply.
   */
  method DoIO(k: Kernel, me: Task, ior: IORequest, b: Begun) returns (r: Option<int>)
    requires k.Valid() && me in k.taskready
    requires ior.message.replyport != null && PortOk(ior.message.replyport)
    requires ior.message !in ior.message.replyport.msglist
    requires ior.message.replyport.sigtask != null ==> k.Known(ior.message.replyport.sigtask)
    modifies ior`flags, ior`error, ior.message`ntype, ior.message.replyport`msglist
    modifies k`taskready, k`taskwait, me`sigrecvd, me`sigwait, me`state
    modifies Listener(ior.message.replyport)`sigrecvd, Listener(ior.message.replyport)`state
    ensures k.Valid()
    ensures b.Completed? ==>
      && r == Some(b.error) && CheckIO(ior) == 1 && ior.message.ntype == NT_MESSAGE
      && ior.message.replyport.msglist == old(ior.message.replyport.msglist)
      && k.taskready == old(k.taskready) && k.taskwait == old(k.taskwait)
    ensures b.Queued? ==>
      && r == None && CheckIO(ior) == 0 && ior.message.replyport.msglist == old(ior.message.replyport.msglist)
  {
    ior.flags := Set0(ior.flags);
    BeginIO(k, ior, b);
    r := WaitIOStep(k, me, ior);
  }
}
