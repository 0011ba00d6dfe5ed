/**
 * The serial device drivers (impl.c under mod/serial/apbuart, ns16550,
 * pl011 and nrf-uart).  The four drivers share one design and differ in
 * their registers: a unit is opened on one UART, read requests are served
 * from the receive ring or queued on rx.list, write requests are sent at
 * once or queued on tx.list, and the unit's interrupt handler serves both
 * queues.  The hardware is seen through what the drivers read from it:
 * the bytes the receiver holds, and the status words read while sending
 * (SerialBuf).  The reply a driver gives with lReplyMsg is Ports.ReplyMsg
 * and is not repeated here: a method returns the requests it replies to.
 */
module Serial {
  import opened SerialHw
  import opened SerialBuf
  import Devices
  import Lists
  import Libraries

  const SDCMD_QUERY := Devices.CMD_FOR_API + 0
  const SDCMD_BREAK := Devices.CMD_FOR_API + 1
  const SDCMD_GETPARAMS := Devices.CMD_FOR_API + 2
  const SDCMD_SETPARAMS := Devices.CMD_FOR_API + 3

  /**
   * An IOExtSer: of its IORequest the flags, the command, the error and
   * the message's node type; then actual, length, the data buffer and baud.
   */
  class IoExtSer {
    const command: int
    var flags: int
    var error: int
    var ntype: int
    var actual: nat
    const length: nat
    var data: seq<bv8>
    var baud: int

    constructor (command: int, flags: int, length: nat, data: seq<bv8>)
      ensures this.command == command && this.flags == flags && this.length == length && this.data == data
      ensures error == 0 && ntype == 0 && actual == 0 && baud == 0
    {
      this.command := command;
      this.flags := flags;
      this.length := length;
      this.data := data;
      error := 0;
      ntype := 0;
      actual := 0;
      baud := 0;
    }
  }

  function View(x: IoExtSer): Buf
    reads x`actual, x`data
  {
    Buf(x.length, x.actual, x.data)
  }

  function Views(q: seq<IoExtSer>): (v: seq<Buf>)
    reads q`actual, q`data
    ensures |v| == |q|
  {
    if q == [] then [] else [View(q[0])] + Views(q[1..])
  }

  lemma {:induction false} ViewsAt(q: seq<IoExtSer>, i: nat)
    requires i < |q|
    ensures Views(q)[i] == View(q[i])
    decreases i
  {
    if i > 0 {
      ViewsAt(q[1..], i - 1);
    }
  }

  /** Requests whose actual and data are as they were have the views they had. */
  twostate lemma {:induction false} ViewsUnchanged(q: seq<IoExtSer>)
    requires forall x :: x in q ==> View(x) == old(View(x))
    ensures Views(q) == old(Views(q))
    decreases |q|
  {
    if q != [] {
      assert q[0] in q;
      ViewsUnchanged(q[1..]);
    }
  }

  /** A list of begun, incomplete requests of command cmd, each on it once. */
  ghost predicate Queued(q: seq<IoExtSer>, cmd: int)
    reads set x | x in q
  {
    Lists.Distinct(q) && forall x :: x in q ==> Waiting(x, cmd)
  }

  /** A head put back in front of a list split in two. */
  lemma {:induction false} Rejoin<T>(x: T, a: seq<T>, b: seq<T>, s: seq<T>)
    requires s != [] && s[0] == x && a + b == s[1..]
    ensures ([x] + a) + b == s
  {
    assert ([x] + a) + b == [x] + (a + b);
  }

  /** The queued requests as the driver sees them are incomplete. */
  lemma {:induction false} WaitingPending(q: seq<IoExtSer>, cmd: int)
    requires forall x :: x in q ==> Waiting(x, cmd)
    ensures AllPending(Views(q)) && AllFit(Views(q))
  {
    forall i | 0 <= i < |q|
      ensures Pending(Views(q)[i])
    {
      ViewsAt(q, i);
      assert Waiting(q[i], cmd);
    }
  }

  /**
   * A request on rx.list (cmd CMD_READ) or tx.list (CMD_WRITE): begun
   * (NT_MESSAGE), IOF_QUICK cleared, and not complete.
   */
  predicate Waiting(x: IoExtSer, cmd: int)
    reads x
  {
    x.command == cmd && x.ntype == Lists.NT_MESSAGE && !Libraries.Bit0(x.flags) && Pending(View(x))
  }

  /**
   * A DevUnit: the UART of chip, its unit number, the receive ring
   * rx.buf with rx.r and rx.w, rx.list and tx.list, whether the transmit
   * interrupt is enabled (APBUART CTRL_TI, NS16550 IER_TBE, PL011 INT_TX,
   * nRF INT_TXDRDY) and, on APBUART, fifo_available.
   */
  class Unit {
    const chip: Chip
    const num: int
    const buf: array<bv8>
    const fifo: bool
    var r: int
    var w: int
    var rxq: seq<IoExtSer>
    var txq: seq<IoExtSer>
    var txint: bool

    /**
     * The ring is sound, and rx.list and tx.list hold begun, incomplete
     * requests of their command, each at most once.
     */
    ghost predicate Valid()
      reads this, set x | x in rxq, set x | x in txq
    {
      RingOk() && Queued(rxq, Devices.CMD_READ) && Queued(txq, Devices.CMD_WRITE)
    }

    /** The ring indexes are in the buffer, and the ring holds bytes only while rx.list is empty. */
    ghost predicate RingOk()
      reads this`r, this`w, this`rxq
    {
      buf.Length == RXBUF && Index(r) && Index(w) && (r != w ==> rxq == [])
    }

    /** The bytes in the receive ring, oldest first. */
    function Contents(): seq<bv8>
      reads this`r, this`w, buf
      requires buf.Length == RXBUF && Index(r) && Index(w)
    {
      Ring(buf[..], r, w)
    }

    /**
     * iOpen's new unit, cleared, with both lists empty, and inithw: the
     * transmit interrupt is off and on APBUART fifo_available is
     * CTRL_FA of the control register.
     */
    constructor (chip: Chip, num: int, ctrl: bv32)
      ensures Valid() && fresh(buf)
      ensures this.chip == chip && this.num == num
      ensures Contents() == [] && rxq == [] && txq == [] && !txint
      ensures fifo == (chip == Apbuart && FifoAvailable(ctrl))
    {
      this.chip := chip;
      this.num := num;
      buf := new bv8[RXBUF];
      fifo := chip == Apbuart && FifoAvailable(ctrl);
      r := 0;
      w := 0;
      rxq := [];
      txq := [];
      txint := false;
    }

    /**
     * iBeginIO: the request becomes NT_MESSAGE with IOERR_OK, then
     * CMD_WRITE is cmd_write, CMD_READ cmd_read, SDCMD_QUERY the number of
     * bytes in the ring, SDCMD_GETPARAMS (APBUART only) the baud rate
     * getbaud gives, and any other command IOERR_NOCMD.  A request not
     * queued is replied to unless IOF_QUICK is set; a queued one is not
     * touched again.
     */
    method BeginIO(req: IoExtSer, ans: seq<bv32>, baud: int) returns (queued: bool, reply: bool, sent: seq<bv8>)
      requires Valid() && req !in rxq && req !in txq && req.length <= |req.data|
      modifies this`r, this`rxq, this`txq, this`txint, req
      ensures Valid() && req.ntype == Lists.NT_MESSAGE
      ensures var known := req.command in {Devices.CMD_WRITE, Devices.CMD_READ, SDCMD_QUERY}
          || (chip == Apbuart && req.command == SDCMD_GETPARAMS);
        req.error == if known then Devices.IOERR_OK else Devices.IOERR_NOCMD
      ensures reply == (!queued && !Libraries.Bit0(req.flags))
      ensures queued ==> req.command in {Devices.CMD_WRITE, Devices.CMD_READ}
      ensures req.command == Devices.CMD_WRITE ==> (rxq == old(rxq) && Contents() == old(Contents())
        && txq == (if queued then old(txq) + [req] else old(txq))
        && var o := SerialBuf.CmdWrite(chip, fifo, Buf(req.length, 0, old(req.data)), old(txq) != [], ans);
          View(req) == o.b && sent == o.sent && queued == o.queued)
      ensures req.command == Devices.CMD_READ ==> (txq == old(txq) && sent == []
        && rxq == (if queued then old(rxq) + [req] else old(rxq))
        && View(req) == Put(Buf(req.length, 0, old(req.data)), old(Contents()))
        && Contents() == old(Contents())[req.actual..] && (queued <==> req.actual < req.length))
      ensures req.command != Devices.CMD_WRITE && req.command != Devices.CMD_READ ==>
        rxq == old(rxq) && txq == old(txq) && Contents() == old(Contents()) && sent == []
      ensures req.command == SDCMD_QUERY ==> req.actual == |Contents()|
      ensures chip == Apbuart && req.command == SDCMD_GETPARAMS ==> req.baud == baud
    {
      req.ntype := Lists.NT_MESSAGE;
      req.error := Devices.IOERR_OK;
      queued, sent := false, [];
      if req.command == Devices.CMD_WRITE {
        queued, sent := CmdWrite(req, ans);
      } else if req.command == Devices.CMD_READ {
        queued := CmdRead(req);
      } else if req.command == SDCMD_QUERY {
        Query(req);
      } else if chip == Apbuart && req.command == SDCMD_GETPARAMS {
        req.baud := baud;
      } else {
        req.error := Devices.IOERR_NOCMD;
      }
      reply := !queued && !Libraries.Bit0(req.flags);
    }

    /**
     * iAbortIO: a CMD_WRITE or CMD_READ request still NT_MESSAGE is taken
     * off its list and gets IOERR_ABORTED, and is replied to unless
     * IOF_QUICK is set; any other request (already replied, or being
     * replied by the interrupt handler) is left alone.
     */
    method AbortIO(req: IoExtSer) returns (abort: bool, reply: bool)
      requires Valid()
      requires req.ntype == Lists.NT_MESSAGE && req.command == Devices.CMD_WRITE ==> req in txq
      requires req.ntype == Lists.NT_MESSAGE && req.command == Devices.CMD_READ ==> req in rxq
      modifies this`rxq, this`txq, req`error
      ensures Valid() && req !in rxq && req !in txq
      ensures abort <==> req.ntype == Lists.NT_MESSAGE && req.command in {Devices.CMD_WRITE, Devices.CMD_READ}
      ensures abort ==> req.error == Devices.IOERR_ABORTED
      ensures !abort ==> req.error == old(req.error) && rxq == old(rxq) && txq == old(txq)
      ensures reply == (abort && !Libraries.Bit0(req.flags))
      ensures req.command == Devices.CMD_WRITE ==> rxq == old(rxq) && (abort ==> txq == Lists.RemoveAt(old(txq), Lists.IndexOf(old(txq), req)))
      ensures req.command == Devices.CMD_READ ==> txq == old(txq) && (abort ==> rxq == Lists.RemoveAt(old(rxq), Lists.IndexOf(old(rxq), req)))
    {
      abort := false;
      if req.command == Devices.CMD_WRITE {
        if req.ntype == Lists.NT_MESSAGE {
          txq := Remove(txq, req);
          abort := true;
        }
      } else if req.command == Devices.CMD_READ {
        if req.ntype == Lists.NT_MESSAGE {
          rxq := Remove(rxq, req);
          abort := true;
        }
      }
      if abort {
        req.error := Devices.IOERR_ABORTED;
      }
      reply := abort && !Libraries.Bit0(req.flags);
    }

    /**
     * cmd_read: actual is set to 0 and the request takes bytes from the
     * ring, oldest first, until it is complete or the ring is empty.  A
     * complete request is not queued; an incomplete one loses IOF_QUICK
     * and goes to the end of rx.list, with the ring then empty.
     */
    method CmdRead(req: IoExtSer) returns (queued: bool)
      requires Valid() && req !in rxq && req.command == Devices.CMD_READ
      requires req.ntype == Lists.NT_MESSAGE && req.length <= |req.data|
      modifies this`r, this`rxq, req`actual, req`data, req`flags
      ensures Valid() && w == old(w) && txq == old(txq) && txint == old(txint)
      ensures var k := Min(req.length, |old(Contents())|);
        && View(req) == Put(Buf(req.length, 0, old(req.data)), old(Contents()))
        && Contents() == old(Contents())[k..]
        && (queued <==> k < req.length)
      ensures queued ==> rxq == old(rxq) + [req] && req.flags == Libraries.Clear0(old(req.flags))
      ensures !queued ==> rxq == old(rxq) && req.flags == old(req.flags)
    {
      req.actual := 0;
      if req.length == 0 {
        assert req.data[..0] + Contents()[..0] + req.data[0..] == req.data;
        return false;
      }
      ghost var c0 := Contents();
      queued := ReadRing(req);
      assert req.actual == Min(req.length, |c0|);
    }

    /** cmd_read once the request is known not to be empty. */
    method ReadRing(req: IoExtSer) returns (queued: bool)
      requires Valid() && req !in rxq && req.command == Devices.CMD_READ
      requires req.ntype == Lists.NT_MESSAGE && req.actual == 0 < req.length <= |req.data|
      modifies this`r, this`rxq, req`actual, req`data, req`flags
      ensures Valid() && w == old(w) && txq == old(txq) && txint == old(txint)
      ensures View(req) == Put(old(View(req)), old(Contents())) && Contents() == old(Contents())[req.actual..]
      ensures queued <==> req.actual < req.length
      ensures queued ==> rxq == old(rxq) + [req] && req.flags == Libraries.Clear0(old(req.flags))
      ensures !queued ==> rxq == old(rxq) && req.flags == old(req.flags)
    {
      Take(req);
      if req.actual == req.length {
        return false;
      }
      rxq := Enqueue(rxq, req);
      return true;
    }

    /**
     * cmd_write: actual is set to 0; an empty write is complete.  With
     * tx.list empty the chip's write loop sends what the transmitter
     * takes, and a request so completed is not queued; otherwise the
     * request loses IOF_QUICK, goes to the end of tx.list untouched, and
     * the transmit interrupt is turned on.
     */
    method CmdWrite(req: IoExtSer, ans: seq<bv32>) returns (queued: bool, sent: seq<bv8>)
      requires Valid() && req !in txq && req.command == Devices.CMD_WRITE
      requires req.ntype == Lists.NT_MESSAGE && req.length <= |req.data|
      modifies this`txq, this`txint, req`actual, req`flags
      ensures Valid() && rxq == old(rxq)
      ensures var o := SerialBuf.CmdWrite(chip, fifo, Buf(req.length, 0, req.data), old(txq) != [], ans);
        View(req) == o.b && sent == o.sent && queued == o.queued
      ensures queued ==> txq == old(txq) + [req] && txint && req.flags == Libraries.Clear0(old(req.flags))
      ensures !queued ==> txq == old(txq) && txint == old(txint) && req.flags == old(req.flags)
    {
      ApartQueues();
      assert req !in rxq;
      req.actual := 0;
      if req.length == 0 {
        return false, [];
      }
      sent := [];
      if txq == [] {
        var rest;
        sent, rest := Send(req, ans);
        if req.actual == req.length {
          return false, sent;
        }
      }
      txq := Enqueue(txq, req);
      txint := true;
      queued := true;
    }

    /** A request taken off a list wherever it is (lRemove). */
    static method Remove(q: seq<IoExtSer>, req: IoExtSer) returns (q': seq<IoExtSer>)
      requires Lists.Distinct(q) && req in q
      ensures q' == Lists.RemoveAt(q, Lists.IndexOf(q, req)) && Lists.Distinct(q') && req !in q'
      ensures forall x :: x in q' ==> x in q
    {
      var i := 0;
      while q[i] != req
        invariant 0 <= i < |q| && req !in q[..i]
        decreases |q| - i
      {
        i := i + 1;
      }
      Lists.RemoveAtDistinct(q, i);
      q' := Lists.RemoveAt(q, i);
    }

    /** A request going to the end of a list: IOF_QUICK is cleared first (lAddTail). */
    static method Enqueue(q: seq<IoExtSer>, req: IoExtSer) returns (q': seq<IoExtSer>)
      requires Lists.Distinct(q) && req !in q && req.ntype == Lists.NT_MESSAGE && Pending(View(req))
      requires forall x :: x in q ==> Waiting(x, req.command)
      modifies req`flags
      ensures q' == q + [req] && Lists.Distinct(q') && req.flags == Libraries.Clear0(old(req.flags))
      ensures forall x :: x in q' ==> Waiting(x, req.command)
    {
      req.flags := Libraries.Clear0(req.flags);
      Lists.InsertAtDistinct(q, |q|, req);
      assert Lists.InsertAt(q, |q|, req) == q + [req];
      q' := q + [req];
    }

    /** cmd_read: bytes move from the ring to the request, oldest first. */
    method Take(req: IoExtSer)
      requires buf.Length == RXBUF && Index(r) && Index(w)
      requires req.actual == 0 < req.length <= |req.data|
      modifies this`r, req`actual, req`data
      ensures Index(r) && View(req) == Put(old(View(req)), old(Contents()))
      ensures Contents() == old(Contents())[req.actual..]
      ensures req.actual < req.length ==> r == w
    {
      ghost var c0 := Contents();
      var data, actual := Drain(req.data, req.length);
      assert req.data[..0] + c0 == c0;
      PutOver(View(req), c0, data, actual);
      req.data, req.actual := data, actual;
    }

    /** The loop of cmd_read: up to room bytes leave the ring and overwrite d from its start. */
    method Drain(d: seq<bv8>, room: nat) returns (data: seq<bv8>, actual: nat)
      requires buf.Length == RXBUF && Index(r) && Index(w) && room <= |d|
      modifies this`r
      ensures Index(r) && actual == Min(room, |old(Contents())|)
      ensures data == old(Contents())[..actual] + d[actual..]
      ensures Contents() == old(Contents())[actual..]
      ensures actual < room ==> r == w
    {
      ghost var c0 := Contents();
      data, actual := d, 0;
      var diff := w - r;
      if diff < 0 {
        diff := diff + RXBUF;
      }
      while actual < room && diff != 0
        modifies this`r
        invariant Index(r) && diff == Count(r, w)
        invariant actual <= room && actual + diff == |c0|
        invariant Contents() == c0[actual..]
        invariant data == c0[..actual] + d[actual..]
        decreases diff
      {
        data, actual := TakeByte(c0, d, data, actual);
        diff := diff - 1;
      }
    }

    /** One turn of the loop of cmd_read: the oldest byte goes to data[actual]. */
    method TakeByte(ghost c0: seq<bv8>, d: seq<bv8>, data: seq<bv8>, actual: nat) returns (data': seq<bv8>, actual': nat)
      requires buf.Length == RXBUF && Index(r) && Index(w) && r != w
      requires actual < |d| && actual < |c0| && Contents() == c0[actual..] && data == c0[..actual] + d[actual..]
      modifies this`r
      ensures Index(r) && Count(r, w) == Count(old(r), w) - 1 && actual' == actual + 1
      ensures Contents() == c0[actual'..] && data' == c0[..actual'] + d[actual'..]
    {
      var x := Pop();
      PlaceByte(c0, d, actual);
      data', actual' := data[actual := x], actual + 1;
    }

    /** The oldest byte taken off the ring: rx.r moves on. */
    method Pop() returns (x: bv8)
      requires buf.Length == RXBUF && Index(r) && Index(w) && r != w
      modifies this`r
      ensures Index(r) && Count(r, w) == Count(old(r), w) - 1
      ensures old(Contents()) == [x] + Contents()
    {
      RingPop(buf[..], r, w);
      x := buf[r];
      r := r + 1;
      if r == RXBUF {
        r := 0;
      }
    }

    /** SDCMD_QUERY: actual is the number of bytes in the ring. */
    method Query(req: IoExtSer)
      requires Valid()
      modifies req`actual
      ensures req.actual == |Contents()| < RXBUF
    {
      var diff := w - r;
      if diff < 0 {
        diff := diff + RXBUF;
      }
      req.actual := diff;
    }
  
    /** The first loop of isr_rx: up to RxBurst(chip) bytes the receiver holds, in order. */
    method Receive(waiting: seq<bv8>) returns (rxdata: seq<bv8>)
      ensures rxdata == waiting[..Min(RxBurst(chip), |waiting|)]
    {
      rxdata := [];
      while |rxdata| < RxBurst(chip) && |rxdata| < |waiting|
        invariant |rxdata| <= RxBurst(chip) && |rxdata| <= |waiting|
        invariant rxdata == waiting[..|rxdata|]
      {
        assert waiting[..|rxdata| + 1] == waiting[..|rxdata|] + [waiting[|rxdata|]];
        rxdata := rxdata + [waiting[|rxdata|]];
      }
    }

    /**
     * isr of APBUART, PL011 and nRF: isr_rx, then isr_tx.  waiting is what
     * the receiver holds and ans the status words isr_tx reads.
     */
    method Interrupt(waiting: seq<bv8>, ans: seq<bv32>) returns (rxdone: seq<IoExtSer>, txdone: seq<IoExtSer>, sent: seq<bv8>)
      requires Valid() && chip != Ns16550
      modifies this`w, buf, this`rxq, rxq`actual, rxq`data, rxq`ntype
      modifies this`txq, this`txint, txq`actual, txq`ntype
      ensures Valid()
      ensures old(AllFit(Views(rxq))) && |old(Contents())| < RXBUF
      ensures var s := RxServe(old(Views(rxq)), waiting[..Min(RxBurst(chip), |waiting|)]);
        Views(rxdone) == s.done && Views(rxq) == s.rest && Contents() == Stored(old(Contents()), s.left)
      ensures old(AllPending(Views(txq))) && var t := SerialBuf.IsrTx(chip, fifo, old(Views(txq)), ans);
        && Views(txdone) == t.done && Views(txq) == t.rest && sent == t.sent
        && (if t.idle then !txint else txint == old(txint))
    {
      rxdone := RxAll(waiting);
      txdone, sent := TxAll(ans, rxdone);
    }

    /** isr_rx on a sound unit: tx.list and its requests are left alone. */
    method RxAll(waiting: seq<bv8>) returns (replies: seq<IoExtSer>)
      requires Valid()
      modifies this`w, buf, this`rxq, rxq`actual, rxq`data, rxq`ntype
      ensures Valid() && Views(txq) == old(Views(txq)) && forall x :: x in replies ==> x !in txq
      ensures old(AllFit(Views(rxq))) && |old(Contents())| < RXBUF
      ensures var s := RxServe(old(Views(rxq)), waiting[..Min(RxBurst(chip), |waiting|)]);
        Views(replies) == s.done && Views(rxq) == s.rest && Contents() == Stored(old(Contents()), s.left)
    {
      ApartQueues();
      replies := IsrRx(waiting);
      forall x | x in txq
        ensures View(x) == old(View(x))
      {
        assert x !in old(rxq);
      }
      ViewsUnchanged(txq);
      assert forall x :: x in replies ==> x in old(rxq) by {
        assert replies + rxq == old(rxq);
      }
    }

    /** isr_tx on a sound unit: rx.list and its requests are left alone. */
    method TxAll(ans: seq<bv32>, ghost done: seq<IoExtSer>) returns (replies: seq<IoExtSer>, sent: seq<bv8>)
      requires Valid() && forall x :: x in done ==> x !in txq
      modifies this`txq, this`txint, txq`actual, txq`ntype
      ensures Valid() && Views(rxq) == old(Views(rxq)) && Views(done) == old(Views(done))
      ensures old(AllPending(Views(txq))) && var t := SerialBuf.IsrTx(chip, fifo, old(Views(txq)), ans);
        && Views(replies) == t.done && Views(txq) == t.rest && sent == t.sent
        && (if t.idle then !txint else txint == old(txint))
      ensures replies + txq == old(txq)
    {
      ApartQueues();
      replies, sent := Transmit(ans);
      forall x | x in rxq
        ensures Waiting(x, Devices.CMD_READ) && View(x) == old(View(x))
      {
        assert x !in old(txq) && old(Waiting(x, Devices.CMD_READ));
      }
      ViewsUnchanged(rxq);
      forall x | x in done
        ensures View(x) == old(View(x))
      {
      }
      ViewsUnchanged(done);
    }

    /**
     * isr_rx: up to RxBurst(chip) of the bytes waiting in the receiver are
     * read; nothing more happens when there are none.  Then the requests
     * on rx.list take them head first, and the bytes no request took go to
     * the ring.  The requests completed are returned, in order, for
     * lReplyMsg.
     */
    method IsrRx(waiting: seq<bv8>) returns (replies: seq<IoExtSer>)
      requires Valid()
      modifies this`w, buf, this`rxq, rxq`actual, rxq`data, rxq`ntype
      ensures Valid()
      ensures old(AllFit(Views(rxq))) && |old(Contents())| < RXBUF
      ensures var s := RxServe(old(Views(rxq)), waiting[..Min(RxBurst(chip), |waiting|)]);
        Views(replies) == s.done && Views(rxq) == s.rest && Contents() == Stored(old(Contents()), s.left)
      ensures replies + rxq == old(rxq)
      ensures forall x :: x in replies ==> x.ntype == Lists.NT_FREEMSG
    {
      var rxdata := Receive(waiting);
      if rxdata != [] {
        replies := Deliver(rxdata);
      } else {
        NoBytes();
        replies := [];
      }
    }

    /** isr_rx once it has read rxdata: its second and third loops. */
    method Deliver(rxdata: seq<bv8>) returns (replies: seq<IoExtSer>)
      requires Valid()
      modifies this`w, buf, this`rxq, rxq`actual, rxq`data, rxq`ntype
      ensures Valid()
      ensures old(AllFit(Views(rxq))) && |old(Contents())| < RXBUF
      ensures var s := RxServe(old(Views(rxq)), rxdata);
        Views(replies) == s.done && Views(rxq) == s.rest && Contents() == Stored(old(Contents()), s.left)
      ensures replies + rxq == old(rxq)
      ensures forall x :: x in replies ==> x.ntype == Lists.NT_FREEMSG
    {
      var left;
      replies, left := ServeAll(rxdata);
      Keep(left, replies);
    }

    /** Store, with what it leaves alone: the requests and both lists. */
    method Keep(left: seq<bv8>, ghost done: seq<IoExtSer>)
      requires Valid() && (left != [] ==> rxq == [])
      modifies this`w, buf
      ensures Valid() && Contents() == Stored(old(Contents()), left)
      ensures Views(done) == old(Views(done)) && Views(rxq) == old(Views(rxq))
      ensures forall x :: x in done ==> x.ntype == old(x.ntype)
    {
      Store(left);
    }

    /**
     * The second loop of isr_rx over all of rxdata, with what it keeps:
     * tx.list is not touched, and bytes are left over only once rx.list
     * is empty.
     */
    method ServeAll(rxdata: seq<bv8>) returns (replies: seq<IoExtSer>, left: seq<bv8>)
      requires Valid()
      modifies this`rxq, rxq`actual, rxq`data, rxq`ntype
      ensures Valid() && (left != [] ==> rxq == [])
      ensures old(AllFit(Views(rxq))) && var s := RxServe(old(Views(rxq)), rxdata);
        Views(replies) == s.done && Views(rxq) == s.rest && left == s.left
      ensures replies + rxq == old(rxq)
      ensures forall x :: x in replies ==> x.ntype == Lists.NT_FREEMSG
    {
      WaitingPending(rxq, Devices.CMD_READ);
      ApartQueues();
      ghost var q := Views(rxq);
      replies, left := Serve(rxdata, 0);
      forall x | x in txq
        ensures Waiting(x, Devices.CMD_WRITE)
      {
        assert x !in old(rxq) && old(Waiting(x, Devices.CMD_WRITE));
      }
      RxServeBytes(q, rxdata);
      assert rxdata[0..] == rxdata;
    }

    /** With no byte received, isr_rx leaves rx.list and the ring as they are. */
    lemma {:induction false} NoBytes()
      requires Valid()
      ensures AllFit(Views(rxq)) && |Contents()| < RXBUF
      ensures RxServe(Views(rxq), []) == Served([], Views(rxq), [])
      ensures Stored(Contents(), []) == Contents()
    {
      WaitingPending(rxq, Devices.CMD_READ);
      RxServeNone(Views(rxq));
      assert Contents() + [] == Contents();
    }

    /** rx.list and tx.list share no request: their commands differ. */
    lemma {:induction false} ApartQueues()
      requires Valid()
      ensures forall x :: x in txq ==> x !in rxq
    {
      forall x | x in txq
        ensures x !in rxq
      {
        assert Waiting(x, Devices.CMD_WRITE);
      }
    }

    /**
     * The second loop of isr_rx, from rxdata[i..] on: the requests on
     * rx.list, head first, take the received bytes; each one completed
     * leaves the list as NT_FREEMSG to be replied to, and the first one
     * left incomplete stops the loop.  left is what no request took.
     */
    method Serve(rxdata: seq<bv8>, i: nat) returns (replies: seq<IoExtSer>, left: seq<bv8>)
      requires Queued(rxq, Devices.CMD_READ) && i <= |rxdata|
      modifies this`rxq, rxq`actual, rxq`data, rxq`ntype
      ensures Queued(rxq, Devices.CMD_READ)
      ensures old(AllFit(Views(rxq))) && (var s := RxServe(old(Views(rxq)), rxdata[i..]);
        Views(replies) == s.done && Views(rxq) == s.rest && left == s.left)
      ensures replies + rxq == old(rxq)
      ensures forall x :: x in replies ==> x.ntype == Lists.NT_FREEMSG
      decreases |rxq|, 2
    {
      WaitingPending(rxq, Devices.CMD_READ);
      if rxq == [] {
        replies, left := [], rxdata[i..];
      } else {
        replies, left := ServeHead(rxdata, i);
      }
    }

    /** The turn of that loop with rx.list not empty. */
    method ServeHead(rxdata: seq<bv8>, i: nat) returns (replies: seq<IoExtSer>, left: seq<bv8>)
      requires Queued(rxq, Devices.CMD_READ) && rxq != [] && i <= |rxdata|
      modifies this`rxq, rxq`actual, rxq`data, rxq`ntype
      ensures Queued(rxq, Devices.CMD_READ)
      ensures old(AllFit(Views(rxq))) && (var s := RxServe(old(Views(rxq)), rxdata[i..]);
        Views(replies) == s.done && Views(rxq) == s.rest && left == s.left)
      ensures replies + rxq == old(rxq)
      ensures forall x :: x in replies ==> x.ntype == Lists.NT_FREEMSG
      decreases |rxq|, 1
    {
      var req := rxq[0];
      ghost var q := Views(rxq);
      var j, done := ServeOne(req, rxdata, i);
      if done {
        replies, left := ServeRest(req, q, old(rxq), rxdata, i, j);
      } else {
        replies, left := [], rxdata[j..];
      }
    }

    /**
     * The loop going on after req, complete, left the head of rx.list: q
     * was rx.list before req took its bytes from rxdata[i..j].
     */
    method ServeRest(req: IoExtSer, ghost q: seq<Buf>, ghost r0: seq<IoExtSer>, rxdata: seq<bv8>, i: nat, j: nat)
        returns (replies: seq<IoExtSer>, left: seq<bv8>)
      requires Queued(rxq, Devices.CMD_READ) && req !in rxq && r0 == [req] + rxq && i <= j <= |rxdata|
      requires req.ntype == Lists.NT_FREEMSG
      requires AllFit(q) && AllFit(Views(rxq))
      requires RxServe(q, rxdata[i..]) == Then([View(req)], RxServe(Views(rxq), rxdata[j..]))
      modifies this`rxq, rxq`actual, rxq`data, rxq`ntype
      ensures Queued(rxq, Devices.CMD_READ)
      ensures var s := RxServe(q, rxdata[i..]);
        Views(replies) == s.done && Views(rxq) == s.rest && left == s.left
      ensures replies + rxq == r0
      ensures forall x :: x in replies ==> x.ntype == Lists.NT_FREEMSG
      decreases |rxq| + 1, 0
    {
      ghost var h := View(req);
      var more;
      more, left := Serve(rxdata, j);
      assert View(req) == h && req.ntype == Lists.NT_FREEMSG;
      replies := [req] + more;
      Rejoin(req, more, rxq, r0);
    }

    /**
     * One turn of that loop: the head of rx.list takes bytes from
     * rxdata[i..] and, when complete, leaves the list as NT_FREEMSG; the
     * loop goes on after it only then.
     */
    method ServeOne(req: IoExtSer, rxdata: seq<bv8>, i: nat) returns (j: nat, done: bool)
      requires Queued(rxq, Devices.CMD_READ) && rxq != [] && req == rxq[0] && i <= |rxdata|
      modifies this`rxq, req`actual, req`data, req`ntype
      ensures Queued(rxq, Devices.CMD_READ) && old(AllFit(Views(rxq))) && AllFit(Views(rxq)) && i <= j <= |rxdata|
      ensures done ==> rxq == old(rxq)[1..] && req !in rxq && old(rxq) == [req] + rxq && req.ntype == Lists.NT_FREEMSG
      ensures done ==> RxServe(old(Views(rxq)), rxdata[i..]) == Then([View(req)], RxServe(Views(rxq), rxdata[j..]))
      ensures !done ==> rxq == old(rxq) && RxServe(old(Views(rxq)), rxdata[i..]) == Served([], Views(rxq), rxdata[j..])
    {
      ghost var q := Views(rxq);
      WaitingPending(rxq, Devices.CMD_READ);
      assert Waiting(req, Devices.CMD_READ) && q[0] == View(req);
      j, done := Fetch(req, rxdata, i);
      SerialBuf.ServeHead(q, rxdata, i, View(req), j - i);
      WaitingPending(rxq, Devices.CMD_READ);
    }

    /** The head of rx.list takes its bytes and, when complete, leaves the list. */
    method Fetch(req: IoExtSer, rxdata: seq<bv8>, i: nat) returns (j: nat, done: bool)
      requires Queued(rxq, Devices.CMD_READ) && rxq != [] && req == rxq[0] && Waiting(req, Devices.CMD_READ)
      requires i <= |rxdata|
      modifies this`rxq, req`actual, req`data, req`ntype
      ensures Queued(rxq, Devices.CMD_READ)
      ensures View(req) == Put(old(View(req)), rxdata[i..]) && j == i + req.actual - old(req.actual)
      ensures done == (req.actual == req.length)
      ensures done ==> rxq == old(rxq)[1..] && req !in rxq && req.ntype == Lists.NT_FREEMSG && Views(rxq) == old(Views(rxq))[1..]
      ensures !done ==> rxq == old(rxq) && Views(rxq) == [View(req)] + old(Views(rxq))[1..]
    {
      Lists.RemoveAtDistinct(rxq, 0);
      assert rxq[1..] == Lists.RemoveAt(rxq, 0);
      assert Views(rxq)[1..] == Views(rxq[1..]);
      var k := Fill(req, rxdata[i..]);
      j := i + k;
      done := req.actual == req.length;
      if done {
        rxq := rxq[1..];
        req.ntype := Lists.NT_FREEMSG;
      }
    }

    /** The inner loop of isr_rx's second loop: the request takes bytes until it is complete or none are left. */
    static method Fill(req: IoExtSer, bytes: seq<bv8>) returns (k: nat)
      requires Fits(View(req))
      modifies req`actual, req`data
      ensures View(req) == Put(old(View(req)), bytes) && k == req.actual - old(req.actual) <= |bytes|
    {
      var data, actual;
      data, actual, k := Overlay(req.data, req.actual, req.length, bytes);
      PutOver(View(req), bytes, data, actual);
      req.data, req.actual := data, actual;
    }

    /** That loop on the request's data d from index a: bytes go to d[a..len] while there is room. */
    static method Overlay(d: seq<bv8>, a: nat, len: nat, bytes: seq<bv8>) returns (data: seq<bv8>, actual: nat, k: nat)
      requires a <= len <= |d|
      ensures k == Min(len - a, |bytes|) && actual == a + k
      ensures data == (d[..a] + bytes)[..actual] + d[actual..]
    {
      ghost var c := d[..a] + bytes;
      data, actual, k := d, a, 0;
      while actual < len && k < |bytes|
        invariant actual == a + k <= len && k <= |bytes|
        invariant data == c[..actual] + d[actual..]
      {
        PlaceByte(c, d, actual);
        data := data[actual := bytes[k]];
        actual := actual + 1;
        k := k + 1;
      }
    }

    /**
     * The third loop of isr_rx: bytes no request took go to the ring while
     * it holds fewer than RXBUF - 1; the rest are dropped.
     */
    method Store(left: seq<bv8>)
      requires RingOk() && (left != [] ==> rxq == [])
      modifies this`w, buf
      ensures RingOk()
      ensures Contents() == Stored(old(Contents()), left)
    {
      ghost var c0 := Contents();
      var i := 0;
      while i < |left|
        invariant RingOk()
        invariant i <= |left| && |c0| + i < RXBUF && Contents() == c0 + left[..i]
        invariant i < |left| ==> i <= RXBUF - 1 - |c0|
      {
        var diff := w - r;
        if diff < 0 {
          diff := diff + RXBUF;
        }
        if RXBUF - 1 <= diff {
          break;
        }
        Push(left[i]);
        assert left[..i + 1] == left[..i] + [left[i]];
        i := i + 1;
      }
      assert left[..i] == left[..Min(|left|, RXBUF - 1 - |c0|)];
    }

    /** One byte stored at rx.w, which moves on. */
    method Push(x: bv8)
      requires RingOk() && rxq == [] && |Contents()| < RXBUF - 1
      modifies this`w, buf
      ensures RingOk() && Contents() == old(Contents()) + [x]
    {
      ghost var b := buf[..];
      RingPush(b, r, w, x);
      buf[w] := x;
      assert buf[..] == b[w := x];
      w := w + 1;
      if w == RXBUF {
        w := 0;
      }
    }

    /**
     * isr_tx: while tx.list has a request, a pass of the loop sends what
     * the transmitter takes of the head and takes it off when complete;
     * the loop goes on only while the status reads allow (TxTurn), and
     * finding tx.list empty turns the transmit interrupt off.  The
     * requests completed are returned, in order, for lReplyMsg.
     */
    method Transmit(ans: seq<bv32>) returns (replies: seq<IoExtSer>, sent: seq<bv8>)
      requires Queued(txq, Devices.CMD_WRITE)
      modifies this`txq, this`txint, txq`actual, txq`ntype
      ensures Queued(txq, Devices.CMD_WRITE)
      ensures old(AllPending(Views(txq))) && var t := SerialBuf.IsrTx(chip, fifo, old(Views(txq)), ans);
        && Views(replies) == t.done && Views(txq) == t.rest && sent == t.sent
        && (if t.idle then !txint else txint == old(txint))
      ensures replies + txq == old(txq)
      ensures forall x :: x in replies ==> x.ntype == Lists.NT_FREEMSG
      decreases |ans|, 2
    {
      WaitingPending(txq, Devices.CMD_WRITE);
      if txq == [] {
        txint := false;
        replies, sent := [], [];
      } else {
        replies, sent := TxHead(ans);
      }
    }

    /** The run of isr_tx with tx.list not empty. */
    method TxHead(ans: seq<bv32>) returns (replies: seq<IoExtSer>, sent: seq<bv8>)
      requires Queued(txq, Devices.CMD_WRITE) && txq != []
      modifies this`txq, this`txint, txq`actual, txq`ntype
      ensures Queued(txq, Devices.CMD_WRITE)
      ensures old(AllPending(Views(txq))) && var t := SerialBuf.IsrTx(chip, fifo, old(Views(txq)), ans);
        && Views(replies) == t.done && Views(txq) == t.rest && sent == t.sent
        && (if t.idle then !txint else txint == old(txint))
      ensures replies + txq == old(txq)
      ensures forall x :: x in replies ==> x.ntype == Lists.NT_FREEMSG
      decreases |ans|, 1
    {
      var req := txq[0];
      ghost var q := Views(txq);
      Lists.RemoveAtDistinct(txq, 0);
      var first, next, more, done := TxOne(req, ans);
      if !more {
        replies, sent := if done then [req] else [], first;
      } else if done {
        replies, sent := TxRest(req, q, old(txq), ans, first, next);
      } else {
        var later;
        replies, later := Transmit(next);
        sent := first + later;
      }
    }

    /**
     * The run going on after req, complete, left the head of tx.list: q
     * was tx.list before the pass that sent first and left the answers next.
     */
    method TxRest(req: IoExtSer, ghost q: seq<Buf>, ghost r0: seq<IoExtSer>, ghost ans: seq<bv32>, first: seq<bv8>, next: seq<bv32>)
        returns (replies: seq<IoExtSer>, sent: seq<bv8>)
      requires Queued(txq, Devices.CMD_WRITE) && req !in txq && r0 == [req] + txq
      requires req.ntype == Lists.NT_FREEMSG
      requires AllPending(q) && AllPending(Views(txq))
      requires SerialBuf.IsrTx(chip, fifo, q, ans) == TxThen([View(req)], first, SerialBuf.IsrTx(chip, fifo, Views(txq), next))
      modifies this`txq, this`txint, txq`actual, txq`ntype
      ensures Queued(txq, Devices.CMD_WRITE)
      ensures var t := SerialBuf.IsrTx(chip, fifo, q, ans);
        && Views(replies) == t.done && Views(txq) == t.rest && sent == t.sent
        && (if t.idle then !txint else txint == old(txint))
      ensures replies + txq == r0
      ensures forall x :: x in replies ==> x.ntype == Lists.NT_FREEMSG
      decreases |next|, 3
    {
      ghost var h := View(req);
      var more, later;
      more, later := Transmit(next);
      assert View(req) == h && req.ntype == Lists.NT_FREEMSG;
      replies, sent := [req] + more, first + later;
      Rejoin(req, more, txq, r0);
    }

    /**
     * One pass of isr_tx's loop, as TxTurn states it: the head of tx.list
     * sends its next bytes and, when complete, leaves the list as
     * NT_FREEMSG; more says whether the loop goes on, on the answers next.
     */
    method TxOne(req: IoExtSer, ans: seq<bv32>) returns (first: seq<bv8>, next: seq<bv32>, more: bool, done: bool)
      requires Queued(txq, Devices.CMD_WRITE) && txq != [] && req == txq[0]
      modifies this`txq, req`actual, req`ntype
      ensures Queued(txq, Devices.CMD_WRITE) && old(AllPending(Views(txq))) && AllPending(Views(txq))
      ensures done ==> txq == old(txq)[1..] && req.ntype == Lists.NT_FREEMSG
      ensures !done ==> txq == old(txq)
      ensures more ==> (|next| < |ans|
        && SerialBuf.IsrTx(chip, fifo, old(Views(txq)), ans)
           == TxThen(if done then [View(req)] else [], first, SerialBuf.IsrTx(chip, fifo, Views(txq), next)))
      ensures !more ==> (SerialBuf.IsrTx(chip, fifo, old(Views(txq)), ans)
        == TxOut(if done then [View(req)] else [], Views(txq), first, false))
    {
      ghost var q := Views(txq);
      WaitingPending(txq, Devices.CMD_WRITE);
      assert Waiting(req, Devices.CMD_WRITE) && q[0] == View(req);
      first, next, more, done := TxPass(req, ans);
      SerialBuf.IsrTxTurn(chip, fifo, q, ans);
      WaitingPending(txq, Devices.CMD_WRITE);
    }

    /** The pass itself: the bytes go out and a complete head leaves tx.list. */
    method TxPass(req: IoExtSer, ans: seq<bv32>) returns (first: seq<bv8>, next: seq<bv32>, more: bool, done: bool)
      requires Queued(txq, Devices.CMD_WRITE) && txq != [] && req == txq[0] && Waiting(req, Devices.CMD_WRITE)
      modifies this`txq, req`actual, req`ntype
      ensures Queued(txq, Devices.CMD_WRITE)
      ensures var p := TxTurn(chip, fifo, old(View(req)), ans);
        View(req) == p.b && first == p.sent && next == p.ans && more == p.more
      ensures done == (req.actual == req.length)
      ensures done ==> txq == old(txq)[1..] && req.ntype == Lists.NT_FREEMSG && Views(txq) == old(Views(txq))[1..]
      ensures !done ==> txq == old(txq) && Views(txq) == [View(req)] + old(Views(txq))[1..]
    {
      Lists.RemoveAtDistinct(txq, 0);
      assert txq[1..] == Lists.RemoveAt(txq, 0);
      ghost var rest := txq[1..];
      assert Views(txq) == [View(req)] + Views(rest);
      first, next, more := Turn(req, ans);
      done := Settle(req);
      forall x | x in rest
        ensures View(x) == old(View(x))
      {
        assert x != req;
      }
      ViewsUnchanged(rest);
    }

    /** The end of a pass: the head of tx.list, if complete, leaves it as NT_FREEMSG. */
    method Settle(req: IoExtSer) returns (done: bool)
      requires Lists.Distinct(txq) && txq != [] && req == txq[0] && req !in txq[1..]
      requires forall x :: x in txq[1..] ==> Waiting(x, Devices.CMD_WRITE)
      requires req.command == Devices.CMD_WRITE && req.ntype == Lists.NT_MESSAGE && !Libraries.Bit0(req.flags) && Fits(View(req))
      modifies this`txq, req`ntype
      ensures Queued(txq, Devices.CMD_WRITE)
      ensures done == (req.actual == req.length)
      ensures done ==> txq == old(txq)[1..] && req.ntype == Lists.NT_FREEMSG && Views(txq) == Views(old(txq)[1..])
      ensures !done ==> txq == old(txq) && Views(txq) == [View(req)] + Views(old(txq)[1..])
    {
      done := req.actual == req.length;
      if done {
        txq := txq[1..];
        req.ntype := Lists.NT_FREEMSG;
      }
    }

    /** The bytes of one pass going out (TxTurn): nRF tests TXDRDY first, the others read the status after the burst. */
    method Turn(req: IoExtSer, ans: seq<bv32>) returns (first: seq<bv8>, next: seq<bv32>, more: bool)
      requires Pending(View(req))
      modifies req`actual
      ensures var p := TxTurn(chip, fifo, old(View(req)), ans);
        View(req) == p.b && first == p.sent && next == p.ans && more == p.more
    {
      if chip == NrfUart {
        more := ReadyAt(chip, fifo, ans);
        if more {
          first, next := Send(req, ans);
        } else {
          first, next := [], Next(ans);
        }
      } else {
        first, next := Send(req, ans);
        more := ReadyAt(chip, fifo, next);
        next := Next(next);
      }
    }

    /**
     * The chip's write loop on req (Emit): the bytes sent from req.data at
     * actual on, and the status answers not read.
     */
    method Send(req: IoExtSer, ans: seq<bv32>) returns (sent: seq<bv8>, rest: seq<bv32>)
      requires Pending(View(req))
      modifies req`actual
      ensures var e := SerialBuf.Emit(chip, fifo, old(View(req)), ans);
        View(req) == e.b && sent == e.sent && rest == e.ans
    {
      match chip
      case Ns16550 =>
        sent, rest := BurstOut(req, ans);
      case NrfUart =>
        if ReadyAt(NrfUart, false, ans) {
          sent, rest := [req.data[req.actual]], ans[1..];
          req.actual := req.actual + 1;
        } else {
          sent, rest := [], Next(ans);
        }
      case _ =>
        sent, rest := StreamOut(req, ans);
    }

    /**
     * The APBUART and PL011 write loop: while bytes are left, a status
     * read (the next answer) says whether the transmitter takes one more.
     */
    method StreamOut(req: IoExtSer, ans: seq<bv32>) returns (sent: seq<bv8>, rest: seq<bv32>)
      requires Fits(View(req))
      modifies req`actual
      ensures var e := Stream(chip, fifo, old(View(req)), ans);
        View(req) == e.b && sent == e.sent && rest == e.ans
    {
      var b;
      b, sent, rest := Streamed(chip, fifo, View(req), ans);
      StreamSends(chip, fifo, View(req), ans);
      req.actual := b.actual;
    }

    /** The loop of that write on the request's view: a byte goes out for each status read that says ready. */
    static method Streamed(chip: Chip, fifo: bool, b0: Buf, ans: seq<bv32>) returns (b: Buf, sent: seq<bv8>, rest: seq<bv32>)
      requires Fits(b0)
      ensures Emitted(b, sent, rest) == Stream(chip, fifo, b0, ans)
    {
      ghost var e0 := Stream(chip, fifo, b0, ans);
      b, sent, rest := b0, [], ans;
      assert After([], e0) == e0;
      while b.actual < b.length && ReadyAt(chip, fifo, rest)
        invariant Fits(b) && After(sent, Stream(chip, fifo, b, rest)) == e0
        decreases |rest|
      {
        StreamOn(chip, fifo, b, rest, sent);
        sent := sent + [b.data[b.actual]];
        b := Step(b);
        rest := rest[1..];
      }
      if b.actual < b.length {
        // the status read that said full
        rest := Next(rest);
      }
      assert sent + [] == sent;
    }

    /** The NS16550 write: when a status read says the holding register is empty, up to 16 bytes go out. */
    method BurstOut(req: IoExtSer, ans: seq<bv32>) returns (sent: seq<bv8>, rest: seq<bv32>)
      requires Fits(View(req))
      modifies req`actual
      ensures var e := Burst(old(View(req)), ans);
        View(req) == e.b && sent == e.sent && rest == e.ans
    {
      if !ReadyAt(Ns16550, false, ans) {
        return [], Next(ans);
      }
      var n := 16;
      sent := [];
      while req.actual < req.length && n > 0
        invariant 0 <= n <= 16 && req.actual == old(req.actual) + (16 - n) <= req.length
        invariant sent == req.data[old(req.actual)..req.actual]
      {
        sent := sent + [req.data[req.actual]];
        req.actual := req.actual + 1;
        n := n - 1;
      }
      rest := ans[1..];
    }
  }
}
