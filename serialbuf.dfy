/**
 * The buffering shared by the four serial drivers, as functions on values.
 *
 * A unit keeps the bytes that arrived while no read was waiting in a
 * 512-byte ring with read index r and write index w; it holds
 * (w - r) mod 512 bytes, so at most 511.  Read requests that find the ring
 * empty wait on rx.list and are filled, in order, by the receive interrupt;
 * write requests that the transmitter cannot take at once wait on tx.list
 * and are sent, in order, by the transmit interrupt.
 *
 * The driver sees a request as a Buf: its length, the number of bytes done
 * (actual) and its data buffer.  The hardware's answers to the status
 * reads of a transmit loop are the words `ans`, in read order; once they
 * run out the transmitter is not ready.
 */
module SerialBuf {
  import opened SerialHw

  /** NELEM(rx.buf) */
  const RXBUF := 512

  /** The driver's view of an IOExtSer: length, actual and the data buffer. */
  datatype Buf = Buf(length: nat, actual: nat, data: seq<bv8>)

  /** The buffer holds length bytes and no more than length are done. */
  predicate Fits(b: Buf)
  {
    b.actual <= b.length <= |b.data|
  }

  /** A request that is not complete: what rx.list and tx.list hold. */
  predicate Pending(b: Buf)
  {
    b.actual < b.length <= |b.data|
  }

  predicate AllFit(q: seq<Buf>)
  {
    forall i :: 0 <= i < |q| ==> Fits(q[i])
  }

  predicate AllPending(q: seq<Buf>)
  {
    forall i :: 0 <= i < |q| ==> Pending(q[i])
  }

  function Min(a: int, b: int): int
  {
    if a < b then a else b
  }

  // ---------------------------------------------------------------------
  // The receive ring

  predicate Index(i: int)
  {
    0 <= i < RXBUF
  }

  /** An index after it is incremented: back to 0 at the end of the buffer. */
  function Wrap(i: int): int
  {
    if i == RXBUF then 0 else i
  }

  /** diff: the number of bytes in the ring. */
  function Count(r: int, w: int): (n: int)
    requires Index(r) && Index(w)
    ensures 0 <= n < RXBUF && n == (w - r) % RXBUF
  {
    var diff := w - r;
    if diff < 0 then diff + RXBUF else diff
  }

  /** The bytes in the ring, oldest first. */
  function Ring(b: seq<bv8>, r: int, w: int): (s: seq<bv8>)
    requires |b| == RXBUF && Index(r) && Index(w)
    ensures |s| == Count(r, w)
  {
    if r <= w then b[r..w] else b[r..] + b[..w]
  }

  /**
   * Storing a byte at w and advancing w, as isr_rx does while the ring has
   * fewer than 511 bytes, puts the byte at the end of the ring.
   */
  lemma {:induction false} RingPush(b: seq<bv8>, r: int, w: int, x: bv8)
    requires |b| == RXBUF && Index(r) && Index(w) && Count(r, w) < RXBUF - 1
    ensures Index(Wrap(w + 1))
    ensures Ring(b[w := x], r, Wrap(w + 1)) == Ring(b, r, w) + [x]
  {
    var c := b[w := x];
    if r <= w {
      if w + 1 == RXBUF {
        assert c[r..] == b[r..w] + [x];
        assert c[r..] + c[..0] == c[r..];
      } else {
        assert c[r..w + 1] == b[r..w] + [x];
      }
    } else {
      assert c[r..] == b[r..];
      assert c[..w + 1] == b[..w] + [x];
    }
  }

  /**
   * Taking the byte at r and advancing r, as cmd_read does while the ring
   * is not empty, takes the oldest byte off the ring.
   */
  lemma {:induction false} RingPop(b: seq<bv8>, r: int, w: int)
    requires |b| == RXBUF && Index(r) && Index(w) && Count(r, w) > 0
    ensures Index(Wrap(r + 1))
    ensures b[r] == Ring(b, r, w)[0]
    ensures Ring(b, Wrap(r + 1), w) == Ring(b, r, w)[1..]
  {
    if r < w {
      assert b[r + 1..w] == b[r..w][1..];
    } else if r + 1 == RXBUF {
      assert b[r..] == [b[r]];
      assert b[0..w] == b[..w];
    } else {
      assert b[r + 1..] == b[r..][1..];
    }
  }

  // ---------------------------------------------------------------------
  // Serving read requests

  /**
   * A read request after bytes arrive: it takes as many as it still
   * wants, in arrival order, right after the bytes it already has.
   */
  function Put(b: Buf, bytes: seq<bv8>): (r: Buf)
    requires Fits(b)
    ensures Fits(r) && r.length == b.length && |r.data| == |b.data| && r.actual >= b.actual
  {
    var k := Min(b.length - b.actual, |bytes|);
    Buf(b.length, b.actual + k, b.data[..b.actual] + bytes[..k] + b.data[b.actual + k..])
  }

  /** What a run of isr_rx does: the requests completed, the queue left, the bytes left over. */
  datatype Served = Served(done: seq<Buf>, rest: seq<Buf>, left: seq<bv8>)

  /**
   * The second loop of isr_rx: the request at the head of rx.list takes
   * bytes; a complete one leaves the queue and the next is served, an
   * incomplete one stops the loop.
   */
  function RxServe(q: seq<Buf>, bytes: seq<bv8>): Served
    requires AllFit(q)
  {
    if q == [] then Served([], [], bytes)
    else
      var h := Put(q[0], bytes);
      var k := h.actual - q[0].actual;
      if h.actual == h.length then
        var s := RxServe(q[1..], bytes[k..]);
        Served([h] + s.done, s.rest, s.left)
      else
        Served([], [h] + q[1..], bytes[k..])
  }

  /** The bytes a queue of requests still wants. */
  function Need(q: seq<Buf>): nat
  {
    if q == [] then 0
    else (if q[0].actual <= q[0].length then q[0].length - q[0].actual else 0) + Need(q[1..])
  }

  /** The bytes c holds beyond what b held: what the request received. */
  function Got(b: Buf, c: Buf): seq<bv8>
  {
    if b.actual <= c.actual <= |c.data| then c.data[b.actual..c.actual] else []
  }

  /** What each request of q received to become the one of q2, in queue order. */
  function Gots(q: seq<Buf>, q2: seq<Buf>): seq<bv8>
    requires |q| == |q2|
  {
    if q == [] then [] else Got(q[0], q2[0]) + Gots(q[1..], q2[1..])
  }

  /**
   * c is b after bytes were placed from b.actual to c.actual: the same
   * length, and the rest of the buffer untouched.
   */
  predicate Placed(b: Buf, c: Buf)
  {
    && c.length == b.length && b.actual <= c.actual <= c.length
    && |c.data| == |b.data| && c.actual <= |c.data|
    && c.data[..b.actual] == b.data[..b.actual] && c.data[c.actual..] == b.data[c.actual..]
  }

  lemma {:induction false} GotsNone(q: seq<Buf>)
    ensures Gots(q, q) == []
  {
    if q != [] {
      GotsNone(q[1..]);
    }
  }

  /** A request after Put holds the bytes it took right after those it had. */
  lemma {:induction false} PutPlaces(b: Buf, bytes: seq<bv8>)
    requires Fits(b)
    ensures var c := Put(b, bytes); var k := Min(b.length - b.actual, |bytes|);
      && Placed(b, c) && c.actual == b.actual + k && Got(b, c) == bytes[..k]
  {
    var c := Put(b, bytes);
    var k := Min(b.length - b.actual, |bytes|);
    assert c.data[..b.actual] == b.data[..b.actual];
    assert c.data[b.actual + k..] == b.data[b.actual + k..];
    assert c.data[b.actual..b.actual + k] == bytes[..k];
  }

  /**
   * done and rest are q after reads: every request kept in order, a
   * complete prefix, each request only gaining bytes after those it had,
   * and nothing but the head of rest touched.
   */
  predicate RxShape(q: seq<Buf>, done: seq<Buf>, rest: seq<Buf>)
  {
    && |done| + |rest| == |q|
    && (forall i :: 0 <= i < |done| ==> done[i].actual == done[i].length)
    && (forall i :: 0 <= i < |q| ==> Placed(q[i], (done + rest)[i]))
    && (rest == [] || rest[1..] == q[|q| - |rest| + 1..])
  }

  lemma {:induction false} RxShapeStep(q: seq<Buf>, h: Buf, done: seq<Buf>, rest: seq<Buf>)
    requires q != [] && Placed(q[0], h) && h.actual == h.length
    requires RxShape(q[1..], done, rest)
    ensures RxShape(q, [h] + done, rest)
  {
    assert forall i :: 1 <= i < |q| ==> ([h] + done + rest)[i] == (done + rest)[i - 1] && q[i] == q[1..][i - 1];
    if rest != [] {
      assert q[1..][|q[1..]| - |rest| + 1..] == q[|q| - |rest| + 1..];
    }
  }

  lemma {:induction false} RxShapeStop(q: seq<Buf>, h: Buf)
    requires AllFit(q) && q != [] && Placed(q[0], h)
    ensures RxShape(q, [], [h] + q[1..])
  {
    var rest := [h] + q[1..];
    assert [] + rest == rest && rest[1..] == q[1..];
    forall i | 1 <= i < |q|
      ensures Placed(q[i], rest[i])
    {
      assert rest[i] == q[i];
      assert Fits(q[i]);
    }
  }

  /**
   * isr_rx's second loop keeps every request, in order: a prefix is
   * complete and leaves the queue, each request only gains bytes after
   * those it had, the requests after the head are untouched, and the
   * queue left is still pending.
   */
  lemma {:induction false} RxServeShape(q: seq<Buf>, bytes: seq<bv8>)
    requires AllFit(q)
    ensures var s := RxServe(q, bytes);
      && RxShape(q, s.done, s.rest)
      && (AllPending(q) ==> AllPending(s.rest))
  {
    if q != [] {
      var h := Put(q[0], bytes);
      var k := h.actual - q[0].actual;
      PutPlaces(q[0], bytes);
      if h.actual == h.length {
        RxServeShape(q[1..], bytes[k..]);
        var s := RxServe(q[1..], bytes[k..]);
        RxShapeStep(q, h, s.done, s.rest);
        assert RxServe(q, bytes) == Served([h] + s.done, s.rest, s.left);
        if AllPending(q) {
          assert AllPending(q[1..]) by {
            assert forall i :: 0 <= i < |q[1..]| ==> q[1..][i] == q[i + 1];
          }
        }
      } else {
        RxShapeStop(q, h);
        var rest := [h] + q[1..];
        assert RxServe(q, bytes).rest == rest;
        if AllPending(q) {
          assert Pending(h);
          assert forall i :: 1 <= i < |q| ==> rest[i] == q[i];
          assert AllPending(rest);
        }
      }
    }
  }

  /** What RxServeBytes states about one run of isr_rx's second loop. */
  predicate RxFacts(q: seq<Buf>, bytes: seq<bv8>, s: Served)
  {
    var n := Min(|bytes|, Need(q));
    && |s.done| + |s.rest| == |q|
    && Gots(q, s.done + s.rest) == bytes[..n]
    && s.left == bytes[n..]
    && (s.left != [] ==> s.rest == [])
  }

  /** The head completes with k bytes and the rest of the bytes serve the tail. */
  lemma {:induction false} RxFactsStep(q: seq<Buf>, bytes: seq<bv8>, h: Buf, k: nat, s: Served)
    requires q != [] && q[0].actual <= q[0].length && k == q[0].length - q[0].actual <= |bytes|
    requires Got(q[0], h) == bytes[..k]
    requires RxFacts(q[1..], bytes[k..], s)
    ensures RxFacts(q, bytes, Served([h] + s.done, s.rest, s.left))
  {
    var n' := Min(|bytes| - k, Need(q[1..]));
    var all := [h] + (s.done + s.rest);
    assert ([h] + s.done) + s.rest == all;
    assert all[0] == h && all[1..] == s.done + s.rest;
    assert Gots(q, all) == Got(q[0], h) + Gots(q[1..], s.done + s.rest);
    assert bytes[..k] + bytes[k..][..n'] == bytes[..k + n'];
    assert bytes[k..][n'..] == bytes[k + n'..];
    assert Need(q) == k + Need(q[1..]);
  }

  /** The head takes all k bytes and still wants more. */
  lemma {:induction false} RxFactsStop(q: seq<Buf>, bytes: seq<bv8>, h: Buf)
    requires q != [] && q[0].actual <= q[0].length && |bytes| < q[0].length - q[0].actual
    requires Got(q[0], h) == bytes
    ensures RxFacts(q, bytes, Served([], [h] + q[1..], bytes[|bytes|..]))
  {
    var all := [h] + q[1..];
    assert [] + all == all;
    assert all[0] == h && all[1..] == q[1..];
    GotsNone(q[1..]);
    assert Gots(q, all) == Got(q[0], h) + Gots(q[1..], q[1..]);
    assert Need(q) >= q[0].length - q[0].actual;
    assert bytes[..|bytes|] == bytes;
  }

  /**
   * The bytes reach the requests in arrival order: the requests receive
   * exactly the first min(|bytes|, Need(q)) bytes, one after the other,
   * and the rest is left over; bytes are left over only when the queue
   * has run empty (the ring gets data only while rx.list is empty).
   */
  lemma {:induction false} RxServeBytes(q: seq<Buf>, bytes: seq<bv8>)
    requires AllFit(q)
    ensures RxFacts(q, bytes, RxServe(q, bytes))
  {
    if q == [] {
      assert bytes[..0] == [] && bytes[0..] == bytes;
    } else {
      var h := Put(q[0], bytes);
      var k := h.actual - q[0].actual;
      PutPlaces(q[0], bytes);
      if h.actual == h.length {
        RxServeBytes(q[1..], bytes[k..]);
        RxFactsStep(q, bytes, h, k, RxServe(q[1..], bytes[k..]));
      } else {
        assert k == |bytes| && bytes[..k] == bytes;
        RxFactsStop(q, bytes, h);
      }
    }
  }

  /** Byte a of c stored at index a after the first a: the first a + 1 of c, then the rest of d. */
  lemma {:induction false} PlaceByte(c: seq<bv8>, d: seq<bv8>, a: nat)
    requires a < |c| && a < |d|
    ensures (c[..a] + d[a..])[a := c[a]] == c[..a + 1] + d[a + 1..]
  {
    var x := (c[..a] + d[a..])[a := c[a]];
    assert forall i :: 0 <= i < |x| ==> x[i] == (c[..a + 1] + d[a + 1..])[i];
  }

  /** A request whose data from b.actual on is overwritten by c while there is room is Put(b, c). */
  lemma {:induction false} PutOver(b: Buf, c: seq<bv8>, data: seq<bv8>, actual: nat)
    requires Fits(b) && actual == b.actual + Min(b.length - b.actual, |c|)
    requires data == (b.data[..b.actual] + c)[..actual] + b.data[actual..]
    ensures Put(b, c) == Buf(b.length, actual, data)
  {
    assert (b.data[..b.actual] + c)[..actual] == b.data[..b.actual] + c[..actual - b.actual];
  }

  /** With no bytes received the second loop of isr_rx changes nothing. */
  lemma {:induction false} RxServeNone(q: seq<Buf>)
    requires AllPending(q)
    ensures RxServe(q, []) == Served([], q, [])
  {
    if q != [] {
      var b := q[0];
      assert b.data[..b.actual] + [] + b.data[b.actual..] == b.data;
      assert Put(b, []) == b;
      assert [b] + q[1..] == q;
    }
  }

  /** The requests a loop has completed, then what the rest of the loop does. */
  function Then(done: seq<Buf>, s: Served): Served
  {
    Served(done + s.done, s.rest, s.left)
  }

  /** One turn of the serving loop: the head takes what Put gives it from rxdata[i..], and the loop goes on only if it is complete. */
  lemma {:induction false} ServeHead(q: seq<Buf>, rxdata: seq<bv8>, i: nat, h: Buf, k: nat)
    requires AllFit(q) && q != [] && i <= |rxdata| && h == Put(q[0], rxdata[i..]) && k == h.actual - q[0].actual
    ensures i + k <= |rxdata|
    ensures h.actual == h.length ==> RxServe(q, rxdata[i..]) == Then([h], RxServe(q[1..], rxdata[i + k..]))
    ensures h.actual < h.length ==> RxServe(q, rxdata[i..]) == Served([], [h] + q[1..], rxdata[i + k..])
  {
    assert rxdata[i..][k..] == rxdata[i + k..];
  }

  /**
   * The third loop of isr_rx: bytes left over go to the end of the ring
   * while it holds fewer than 511; the rest is dropped.
   */
  function Stored(ring: seq<bv8>, left: seq<bv8>): (s: seq<bv8>)
    requires |ring| < RXBUF
    ensures |s| < RXBUF
  {
    ring + left[..Min(|left|, RXBUF - 1 - |ring|)]
  }

  // ---------------------------------------------------------------------
  // Sending write requests

  /** The bytes of a queue of writes not yet sent, in queue order. */
  function Unsent(q: seq<Buf>): seq<bv8>
  {
    if q == [] then []
    else (if Fits(q[0]) then q[0].data[q[0].actual..q[0].length] else []) + Unsent(q[1..])
  }

  /** A status read takes the next answer; once they run out it takes none. */
  function Next(ans: seq<bv32>): seq<bv32>
  {
    if ans == [] then [] else ans[1..]
  }

  /** The next status read says the transmitter takes a byte. */
  predicate ReadyAt(chip: Chip, fifo: bool, ans: seq<bv32>)
  {
    ans != [] && Ready(chip, fifo, ans[0])
  }

  /** One byte sent: actual moves on by one. */
  function Step(b: Buf): Buf
  {
    b.(actual := b.actual + 1)
  }

  /** A write request after a burst: what is left of it, the bytes sent, the answers left. */
  datatype Emitted = Emitted(b: Buf, sent: seq<bv8>, ans: seq<bv32>)

  /**
   * The APBUART and PL011 write loop: while bytes are left and a status
   * read says the transmitter is not full, the next byte goes out.
   */
  function Stream(chip: Chip, fifo: bool, b: Buf, ans: seq<bv32>): (e: Emitted)
    requires Fits(b)
    ensures Fits(e.b) && |e.ans| <= |ans|
    decreases |ans|
  {
    if b.actual < b.length then
      if ReadyAt(chip, fifo, ans) then
        var e := Stream(chip, fifo, Step(b), ans[1..]);
        Emitted(e.b, [b.data[b.actual]] + e.sent, e.ans)
      else Emitted(b, [], Next(ans))
    else Emitted(b, [], ans)
  }

  /** A burst with the bytes already sent in front of its own. */
  function After(sent: seq<bv8>, e: Emitted): Emitted
  {
    Emitted(e.b, sent + e.sent, e.ans)
  }

  /** A byte the transmitter takes moves from the rest of the burst to the bytes already sent. */
  lemma {:induction false} StreamOn(chip: Chip, fifo: bool, b: Buf, ans: seq<bv32>, sent: seq<bv8>)
    requires Fits(b) && b.actual < b.length && ReadyAt(chip, fifo, ans)
    ensures After(sent, Stream(chip, fifo, b, ans)) == After(sent + [b.data[b.actual]], Stream(chip, fifo, Step(b), ans[1..]))
  {
    var t := Stream(chip, fifo, Step(b), ans[1..]).sent;
    assert sent + ([b.data[b.actual]] + t) == (sent + [b.data[b.actual]]) + t;
  }

  /** The NS16550 burst: when the holding register is empty, up to 16 bytes go out. */
  function Burst(b: Buf, ans: seq<bv32>): (e: Emitted)
    requires Fits(b)
    ensures Fits(e.b) && |e.ans| <= |ans|
  {
    if ReadyAt(Ns16550, false, ans) then
      var k := Min(16, b.length - b.actual);
      Emitted(b.(actual := b.actual + k), b.data[b.actual..b.actual + k], ans[1..])
    else Emitted(b, [], Next(ans))
  }

  /** The nRF write: when TXDRDY is set the event is cleared and one byte goes out. */
  function One(b: Buf, ans: seq<bv32>): (e: Emitted)
    requires Pending(b)
    ensures Fits(e.b) && |e.ans| <= |ans|
  {
    if ReadyAt(NrfUart, false, ans) then Emitted(Step(b), [b.data[b.actual]], ans[1..])
    else Emitted(b, [], Next(ans))
  }

  /** The write loop of each chip. */
  function Emit(chip: Chip, fifo: bool, b: Buf, ans: seq<bv32>): (e: Emitted)
    requires Pending(b)
    ensures Fits(e.b) && |e.ans| <= |ans|
  {
    match chip
    case Ns16550 => Burst(b, ans)
    case NrfUart => One(b, ans)
    case _ => Stream(chip, fifo, b, ans)
  }

  /** The bytes sent are the next ones of the request, in order; the rest of it is unchanged. */
  lemma {:induction false} StreamSends(chip: Chip, fifo: bool, b: Buf, ans: seq<bv32>)
    requires Fits(b)
    ensures var e := Stream(chip, fifo, b, ans);
      && e.b.length == b.length && e.b.data == b.data && b.actual <= e.b.actual
      && e.sent == b.data[b.actual..e.b.actual]
      && (e.b.actual < e.b.length ==> |e.ans| < |ans| || ans == [])
      && |e.sent| <= |ans|
    decreases |ans|
  {
    if b.actual < b.length && ReadyAt(chip, fifo, ans) {
      StreamSends(chip, fifo, Step(b), ans[1..]);
      var e := Stream(chip, fifo, Step(b), ans[1..]);
      assert [b.data[b.actual]] + b.data[b.actual + 1..e.b.actual] == b.data[b.actual..e.b.actual];
    }
  }

  /**
   * Every chip's write loop sends the next bytes of the request in order
   * and changes nothing else; NS16550 sends at most 16 per status read and
   * nRF at most one, and neither sends unless the status read says ready.
   */
  lemma {:induction false} EmitSends(chip: Chip, fifo: bool, b: Buf, ans: seq<bv32>)
    requires Pending(b)
    ensures var e := Emit(chip, fifo, b, ans);
      && e.b.length == b.length && e.b.data == b.data && b.actual <= e.b.actual
      && e.sent == b.data[b.actual..e.b.actual]
      && (e.b.actual < e.b.length ==> |e.ans| < |ans| || ans == [])
      && (chip == Ns16550 ==> |e.sent| <= 16 && (e.sent != [] ==> ReadyAt(chip, fifo, ans)))
      && (chip == NrfUart ==> |e.sent| == (if ReadyAt(chip, fifo, ans) then 1 else 0))
      && (chip != Ns16550 ==> |e.sent| <= |ans|)
  {
    if chip != Ns16550 && chip != NrfUart {
      StreamSends(chip, fifo, b, ans);
    }
  }

  /** The request at the head after a burst: off the queue when complete. */
  function Requeue(h: Buf, tail: seq<Buf>): seq<Buf>
  {
    if h.actual == h.length then tail else [h] + tail
  }

  /** The request at the head after a burst, when it is complete. */
  function DoneIf(h: Buf): seq<Buf>
  {
    if h.actual == h.length then [h] else []
  }

  /** What a run of isr_tx does: the requests completed, the queue left, the bytes sent, whether the transmit interrupt goes off. */
  datatype TxOut = TxOut(done: seq<Buf>, rest: seq<Buf>, sent: seq<bv8>, idle: bool)

  /**
   * isr_tx.  While tx.list has a request: APBUART, PL011 and NS16550 send
   * a burst of it, take it off when complete, and go on only when a status
   * read says the transmitter takes more; nRF goes on only while TXDRDY is
   * set, sending one byte each time.  Finding tx.list empty turns the
   * transmit interrupt off (idle).
   */
  function IsrTx(chip: Chip, fifo: bool, q: seq<Buf>, ans: seq<bv32>): TxOut
    requires AllPending(q)
    decreases |ans|
  {
    if q == [] then TxOut([], [], [], true)
    else if chip == NrfUart then
      if !ReadyAt(chip, fifo, ans) then TxOut([], q, [], false)
      else
        var h := Step(q[0]);
        var t := IsrTx(chip, fifo, Requeue(h, q[1..]), ans[1..]);
        TxOut(DoneIf(h) + t.done, t.rest, [q[0].data[q[0].actual]] + t.sent, t.idle)
    else
      var e := Emit(chip, fifo, q[0], ans);
      EmitSends(chip, fifo, q[0], ans);
      if !ReadyAt(chip, fifo, e.ans) then TxOut(DoneIf(e.b), Requeue(e.b, q[1..]), e.sent, false)
      else
        var t := IsrTx(chip, fifo, Requeue(e.b, q[1..]), e.ans[1..]);
        TxOut(DoneIf(e.b) + t.done, t.rest, e.sent + t.sent, t.idle)
  }

  /** The requests a run has completed and the bytes it has sent, then what the rest of the run does. */
  function TxThen(done: seq<Buf>, sent: seq<bv8>, t: TxOut): TxOut
  {
    TxOut(done + t.done, t.rest, sent + t.sent, t.idle)
  }

  /** One pass of isr_tx's loop: the head after it, the bytes sent, the answers left, whether the loop goes on. */
  datatype Turned = Turned(b: Buf, sent: seq<bv8>, ans: seq<bv32>, more: bool)

  /**
   * One pass of isr_tx's loop on a request b: nRF goes on only when
   * TXDRDY is set, and then sends one byte; the other chips send a burst
   * and go on only when the status read after it says ready.
   */
  function TxTurn(chip: Chip, fifo: bool, b: Buf, ans: seq<bv32>): Turned
    requires Pending(b)
  {
    if chip == NrfUart then
      var e := One(b, ans);
      Turned(e.b, e.sent, e.ans, ReadyAt(chip, fifo, ans))
    else
      var e := Emit(chip, fifo, b, ans);
      Turned(e.b, e.sent, Next(e.ans), ReadyAt(chip, fifo, e.ans))
  }

  /**
   * isr_tx as its loop runs it: one pass on the head, the head off the
   * queue when complete, then, if the loop goes on, the rest of the run on
   * the answers left.
   */
  lemma {:induction false} IsrTxTurn(chip: Chip, fifo: bool, q: seq<Buf>, ans: seq<bv32>)
    requires AllPending(q) && q != []
    ensures var p := TxTurn(chip, fifo, q[0], ans);
      && Fits(p.b) && AllPending(Requeue(p.b, q[1..])) && (p.more ==> |p.ans| < |ans|)
      && IsrTx(chip, fifo, q, ans) == if p.more
        then TxThen(DoneIf(p.b), p.sent, IsrTx(chip, fifo, Requeue(p.b, q[1..]), p.ans))
        else TxOut(DoneIf(p.b), Requeue(p.b, q[1..]), p.sent, false)
  {
    var p := TxTurn(chip, fifo, q[0], ans);
    assert Pending(q[0]);
    EmitSends(chip, fifo, q[0], ans);
    RequeuePending(q, p.b);
    if chip == NrfUart && !p.more {
      assert q == [q[0]] + q[1..];
    }
  }

  /** b2 is b with actual moved on: the same length and data. */
  predicate Advanced(b: Buf, b2: Buf)
  {
    b2.length == b.length && b2.data == b.data && b.actual <= b2.actual <= b2.length
  }

  /**
   * done and rest are q after writes: every request kept in order, a
   * complete prefix, each request only moved on, nothing but the head of
   * rest moved on, and rest still incomplete.
   */
  predicate TxShape(q: seq<Buf>, done: seq<Buf>, rest: seq<Buf>)
  {
    && |done| + |rest| == |q|
    && (forall i :: 0 <= i < |done| ==> done[i].actual == done[i].length)
    && (forall i :: 0 <= i < |q| ==> Advanced(q[i], (done + rest)[i]))
    && (rest == [] || rest[1..] == q[|q| - |rest| + 1..])
    && AllPending(rest)
  }

  lemma {:induction false} RequeuePending(q: seq<Buf>, h: Buf)
    requires AllPending(q) && q != [] && Fits(h)
    ensures AllPending(Requeue(h, q[1..]))
  {
    var q' := Requeue(h, q[1..]);
    if h.actual < h.length {
      assert forall i :: 1 <= i < |q'| ==> q'[i] == q[i];
    } else {
      assert forall i :: 0 <= i < |q'| ==> q'[i] == q[i + 1];
    }
  }

  /** The head left as h after its burst; the run on what is left keeps the shape, so the whole run does. */
  lemma {:induction false} TxShapeStep(q: seq<Buf>, h: Buf, done: seq<Buf>, rest: seq<Buf>)
    requires AllPending(q) && q != [] && Advanced(q[0], h)
    requires TxShape(Requeue(h, q[1..]), done, rest)
    ensures TxShape(q, DoneIf(h) + done, rest)
  {
    if h.actual == h.length {
      TxShapeDone(q, h, done, rest);
    } else {
      TxShapeKeep(q, h, done, rest);
    }
  }

  lemma {:induction false} TxShapeDone(q: seq<Buf>, h: Buf, done: seq<Buf>, rest: seq<Buf>)
    requires q != [] && Advanced(q[0], h) && h.actual == h.length
    requires TxShape(q[1..], done, rest)
    ensures TxShape(q, [h] + done, rest)
  {
    var q' := q[1..];
    assert forall i :: 1 <= i < |q| ==> ([h] + done + rest)[i] == (done + rest)[i - 1] && q[i] == q'[i - 1];
    if rest != [] {
      assert q'[|q'| - |rest| + 1..] == q[|q| - |rest| + 1..];
    }
  }

  lemma {:induction false} TxShapeKeep(q: seq<Buf>, h: Buf, done: seq<Buf>, rest: seq<Buf>)
    requires q != [] && Advanced(q[0], h)
    requires TxShape([h] + q[1..], done, rest)
    ensures TxShape(q, done, rest)
  {
    var q' := [h] + q[1..];
    assert q'[1..] == q[1..];
    assert forall i :: 1 <= i < |q| ==> q'[i] == q'[1..][i - 1] == q[i];
    assert Advanced(q[0], (done + rest)[0]) by {
      assert Advanced(q'[0], (done + rest)[0]);
    }
    if rest != [] {
      assert q'[|q'| - |rest| + 1..] == q[|q| - |rest| + 1..];
    }
  }

  lemma {:induction false} UnsentRequeue(h: Buf, tail: seq<Buf>)
    requires Fits(h)
    ensures Unsent(Requeue(h, tail)) == h.data[h.actual..h.length] + Unsent(tail)
  {
    if h.actual == h.length {
      assert h.data[h.actual..h.length] == [];
    } else {
      assert Requeue(h, tail)[1..] == tail;
    }
  }

  /** What IsrTxSends states about the bytes one run of isr_tx sends. */
  predicate TxSent(chip: Chip, q: seq<Buf>, ans: seq<bv32>, t: TxOut)
  {
    && t.sent + Unsent(t.rest) == Unsent(q)
    && (t.idle ==> t.rest == []) && (q == [] ==> t.idle)
    && (chip == NrfUart ==> (t.idle <==> t.rest == []) && |t.sent| <= |ans|)
    && (chip == Ns16550 ==> |t.sent| <= 16 * |ans|)
  }

  /**
   * The head sends pre and is left as h; if the rest of the run sends
   * sent and leaves restU unsent, the whole run sends pre + sent.
   */
  lemma {:induction false} SentStep(q: seq<Buf>, h: Buf, pre: seq<bv8>, sent: seq<bv8>, restU: seq<bv8>)
    requires q != [] && Fits(q[0]) && Fits(h)
    requires q[0].data[q[0].actual..q[0].length] == pre + h.data[h.actual..h.length]
    requires sent + restU == Unsent(Requeue(h, q[1..]))
    ensures (pre + sent) + restU == Unsent(q)
  {
    var tail := h.data[h.actual..h.length];
    calc {
      (pre + sent) + restU;
      pre + (sent + restU);
      { UnsentRequeue(h, q[1..]); }
      pre + (tail + Unsent(q[1..]));
      (pre + tail) + Unsent(q[1..]);
      Unsent(q);
    }
  }

  /** An nRF pass that finds TXDRDY set: one byte, then the run t on what is left. */
  lemma {:induction false} NrfTxStep(q: seq<Buf>, ans: seq<bv32>, t: TxOut)
    requires AllPending(q) && q != [] && ans != []
    requires TxSent(NrfUart, Requeue(Step(q[0]), q[1..]), ans[1..], t)
    ensures TxSent(NrfUart, q, ans, TxOut(DoneIf(Step(q[0])) + t.done, t.rest, [q[0].data[q[0].actual]] + t.sent, t.idle))
  {
    var h := Step(q[0]);
    assert Pending(q[0]);
    assert q[0].data[q[0].actual..q[0].length] == [q[0].data[q[0].actual]] + h.data[h.actual..h.length];
    SentStep(q, h, [q[0].data[q[0].actual]], t.sent, Unsent(t.rest));
  }

  /** A burst e on the other chips, then the run t on what is left. */
  lemma {:induction false} BurstTxStep(chip: Chip, q: seq<Buf>, ans: seq<bv32>, e: Emitted, t: TxOut)
    requires AllPending(q) && q != [] && chip != NrfUart
    requires Advanced(q[0], e.b) && e.sent == q[0].data[q[0].actual..e.b.actual]
    requires chip == Ns16550 ==> |e.sent| <= 16 && |e.ans| < |ans|
    requires e.ans != [] && TxSent(chip, Requeue(e.b, q[1..]), e.ans[1..], t)
    ensures TxSent(chip, q, ans, TxOut(DoneIf(e.b) + t.done, t.rest, e.sent + t.sent, t.idle))
  {
    assert Pending(q[0]);
    assert q[0].data[q[0].actual..q[0].length] == e.sent + e.b.data[e.b.actual..e.b.length];
    SentStep(q, e.b, e.sent, t.sent, Unsent(t.rest));
  }

  /** A burst e on the other chips after which the transmitter is full: the run stops. */
  lemma {:induction false} BurstTxStop(chip: Chip, q: seq<Buf>, ans: seq<bv32>, e: Emitted)
    requires AllPending(q) && q != [] && chip != NrfUart
    requires Advanced(q[0], e.b) && e.sent == q[0].data[q[0].actual..e.b.actual]
    requires chip == Ns16550 ==> |e.sent| <= 16 && (e.sent != [] ==> ans != [])
    ensures TxSent(chip, q, ans, TxOut(DoneIf(e.b), Requeue(e.b, q[1..]), e.sent, false))
  {
    UnsentRequeue(e.b, q[1..]);
    assert q[0].data[q[0].actual..q[0].length] == e.sent + e.b.data[e.b.actual..e.b.length];
  }

  /**
   * isr_tx sends the queued bytes in queue order, neither losing nor
   * repeating any: what it sends followed by what is still unsent is
   * what was unsent before.  Every request is kept in order, a prefix is
   * complete and leaves the queue, only the head of what is left has
   * moved on, every request left is still incomplete (so nRF's
   * unconditional write always has a byte to send), and the transmit
   * interrupt goes off only with the queue empty (on nRF exactly then).
   * nRF sends at most one byte per status read and NS16550 at most 16.
   */
  lemma {:induction false} IsrTxSends(chip: Chip, fifo: bool, q: seq<Buf>, ans: seq<bv32>)
    requires AllPending(q)
    ensures var t := IsrTx(chip, fifo, q, ans);
      TxShape(q, t.done, t.rest) && TxSent(chip, q, ans, t)
    decreases |ans|, 1
  {
    if q == [] {
    } else if chip == NrfUart {
      if ReadyAt(chip, fifo, ans) {
        NrfTxSends(fifo, q, ans);
      } else {
        TxShapeNone(q);
      }
    } else if ReadyAt(chip, fifo, Emit(chip, fifo, q[0], ans).ans) {
      BurstTxMore(chip, fifo, q, ans);
    } else {
      BurstTxEnd(chip, fifo, q, ans);
    }
  }

  lemma {:induction false} NrfTxSends(fifo: bool, q: seq<Buf>, ans: seq<bv32>)
    requires AllPending(q) && q != [] && ReadyAt(NrfUart, fifo, ans)
    ensures var t := IsrTx(NrfUart, fifo, q, ans);
      TxShape(q, t.done, t.rest) && TxSent(NrfUart, q, ans, t)
    decreases |ans|, 0
  {
    var h := Step(q[0]);
    var q' := Requeue(h, q[1..]);
    RequeuePending(q, h);
    IsrTxSends(NrfUart, fifo, q', ans[1..]);
    var t := IsrTx(NrfUart, fifo, q', ans[1..]);
    assert IsrTx(NrfUart, fifo, q, ans) == TxOut(DoneIf(h) + t.done, t.rest, [q[0].data[q[0].actual]] + t.sent, t.idle);
    TxShapeStep(q, h, t.done, t.rest);
    NrfTxStep(q, ans, t);
  }

  lemma {:induction false} BurstTxMore(chip: Chip, fifo: bool, q: seq<Buf>, ans: seq<bv32>)
    requires AllPending(q) && q != [] && chip != NrfUart
    requires ReadyAt(chip, fifo, Emit(chip, fifo, q[0], ans).ans)
    ensures var t := IsrTx(chip, fifo, q, ans);
      TxShape(q, t.done, t.rest) && TxSent(chip, q, ans, t)
    decreases |ans|, 0
  {
    var e := Emit(chip, fifo, q[0], ans);
    EmitSends(chip, fifo, q[0], ans);
    var q' := Requeue(e.b, q[1..]);
    RequeuePending(q, e.b);
    IsrTxSends(chip, fifo, q', e.ans[1..]);
    var t := IsrTx(chip, fifo, q', e.ans[1..]);
    assert IsrTx(chip, fifo, q, ans) == TxOut(DoneIf(e.b) + t.done, t.rest, e.sent + t.sent, t.idle);
    TxShapeStep(q, e.b, t.done, t.rest);
    BurstTxStep(chip, q, ans, e, t);
  }

  lemma {:induction false} BurstTxEnd(chip: Chip, fifo: bool, q: seq<Buf>, ans: seq<bv32>)
    requires AllPending(q) && q != [] && chip != NrfUart
    requires !ReadyAt(chip, fifo, Emit(chip, fifo, q[0], ans).ans)
    ensures var t := IsrTx(chip, fifo, q, ans);
      TxShape(q, t.done, t.rest) && TxSent(chip, q, ans, t)
  {
    BurstTxEndShape(chip, fifo, q, ans);
    BurstTxEndSent(chip, fifo, q, ans);
  }

  /** The shape half of BurstTxEnd. */
  lemma {:induction false} BurstTxEndShape(chip: Chip, fifo: bool, q: seq<Buf>, ans: seq<bv32>)
    requires AllPending(q) && q != [] && chip != NrfUart
    requires !ReadyAt(chip, fifo, Emit(chip, fifo, q[0], ans).ans)
    ensures var t := IsrTx(chip, fifo, q, ans);
      TxShape(q, t.done, t.rest)
  {
    var e := Emit(chip, fifo, q[0], ans);
    BurstTxLast(chip, fifo, q, ans);
    TxShapeLast(q, e.b);
  }

  /** A last pass that moves the head on leaves the queue in shape: the head done when complete, the rest kept. */
  lemma {:induction false} TxShapeLast(q: seq<Buf>, h: Buf)
    requires AllPending(q) && q != [] && Advanced(q[0], h)
    ensures TxShape(q, DoneIf(h), Requeue(h, q[1..]))
  {
    var q' := Requeue(h, q[1..]);
    RequeuePending(q, h);
    TxShapeNone(q');
    if h.actual == h.length {
      TxShapeDone(q, h, [], q');
    } else {
      TxShapeKeep(q, h, [], q');
    }
  }

  /** A queue nothing happened to is in shape with itself. */
  lemma {:induction false} TxShapeNone(q: seq<Buf>)
    requires AllPending(q)
    ensures TxShape(q, [], q)
  {
    assert [] + q == q;
    if q != [] {
      assert q[|q| - |q| + 1..] == q[1..];
    }
  }

  /** The bytes half of BurstTxEnd. */
  lemma {:induction false} BurstTxEndSent(chip: Chip, fifo: bool, q: seq<Buf>, ans: seq<bv32>)
    requires AllPending(q) && q != [] && chip != NrfUart
    requires !ReadyAt(chip, fifo, Emit(chip, fifo, q[0], ans).ans)
    ensures TxSent(chip, q, ans, IsrTx(chip, fifo, q, ans))
  {
    var e := Emit(chip, fifo, q[0], ans);
    BurstTxLast(chip, fifo, q, ans);
    BurstTxStop(chip, q, ans, e);
  }

  /** The last pass of a run: the burst, and the head off the queue when complete. */
  lemma {:induction false} BurstTxLast(chip: Chip, fifo: bool, q: seq<Buf>, ans: seq<bv32>)
    requires AllPending(q) && q != [] && chip != NrfUart
    requires !ReadyAt(chip, fifo, Emit(chip, fifo, q[0], ans).ans)
    ensures var e := Emit(chip, fifo, q[0], ans);
      && Advanced(q[0], e.b) && e.sent == q[0].data[q[0].actual..e.b.actual]
      && (chip == Ns16550 ==> |e.sent| <= 16 && (e.sent != [] ==> ans != []))
      && IsrTx(chip, fifo, q, ans) == TxOut(DoneIf(e.b), Requeue(e.b, q[1..]), e.sent, false)
  {
    EmitSends(chip, fifo, q[0], ans);
  }

  // ---------------------------------------------------------------------
  // cmd_write

  /** What cmd_write leaves: the request, the bytes sent, whether it was queued. */
  datatype Written = Written(b: Buf, sent: seq<bv8>, queued: bool)

  /**
   * cmd_write on request b with actual already 0: an empty write is
   * complete; with requests already on tx.list (busy) it is queued
   * untouched; otherwise the chip's write loop sends what it can and the
   * request is queued if bytes are left.
   */
  function CmdWrite(chip: Chip, fifo: bool, b: Buf, busy: bool, ans: seq<bv32>): Written
    requires Fits(b) && b.actual == 0
  {
    if b.length == 0 then Written(b, [], false)
    else if busy then Written(b, [], true)
    else
      var e := Emit(chip, fifo, b, ans);
      Written(e.b, e.sent, e.b.actual < e.b.length)
  }

  lemma {:induction false} UnsentAppend(q: seq<Buf>, b: Buf)
    requires Fits(b)
    ensures Unsent(q + [b]) == Unsent(q) + b.data[b.actual..b.length]
  {
    if q == [] {
      assert [] + [b] == [b];
      assert [b][1..] == [];
    } else {
      var h := if Fits(q[0]) then q[0].data[q[0].actual..q[0].length] else [];
      assert (q + [b])[0] == q[0] && (q + [b])[1..] == q[1..] + [b];
      assert Unsent(q + [b]) == h + Unsent(q[1..] + [b]);
      UnsentAppend(q[1..], b);
      assert Unsent(q) == h + Unsent(q[1..]);
    }
  }

  /**
   * cmd_write sends the request's first bytes and queues exactly the
   * rest: it is complete (not queued) when nothing is left; it writes to
   * the hardware only when tx.list is empty, so a queued request's bytes
   * follow every byte already queued; NS16550 sends at most 16 bytes and
   * nRF at most one.
   */
  lemma {:induction false} CmdWriteSends(chip: Chip, fifo: bool, b: Buf, q: seq<Buf>, ans: seq<bv32>)
    requires Fits(b) && b.actual == 0 && AllPending(q)
    ensures var o := CmdWrite(chip, fifo, b, q != [], ans);
      && o.b.length == b.length && o.b.data == b.data
      && o.sent + o.b.data[o.b.actual..o.b.length] == b.data[..b.length]
      && (o.queued <==> o.b.actual < o.b.length)
      && (o.queued ==> Pending(o.b) && Unsent(q + [o.b]) == Unsent(q) + o.b.data[o.b.actual..o.b.length])
      && (q != [] ==> o.sent == [])
      && (chip == Ns16550 ==> |o.sent| <= 16)
      && (chip == NrfUart ==> |o.sent| <= 1)
  {
    var o := CmdWrite(chip, fifo, b, q != [], ans);
    if b.length == 0 {
      assert b.data[..0] == [] && b.data[0..0] == [];
    } else if q != [] {
      assert b.data[0..b.length] == b.data[..b.length];
    } else {
      EmitSends(chip, fifo, b, ans);
      assert b.data[0..o.b.actual] + b.data[o.b.actual..b.length] == b.data[..b.length];
    }
    if o.queued {
      UnsentAppend(q, o.b);
    }
  }
}
