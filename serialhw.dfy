/**
 * The register side of the four serial drivers (impl.c under mod/serial/apbuart,
 * ns16550, pl011 and nrf-uart), as far as it decides what the buffering
 * code does: when the transmitter takes another byte, how the APBUART control word is set up and torn
 * down, how the NS16550 register codes name a register, and how the
 * NS16550 interrupt identification word picks a handler.  Registers are
 * 32-bit words (`bv32`); the NS16550 registers are bytes (`bv8`).
 */
module SerialHw {
  /** The UART a unit drives. */
  datatype Chip = Apbuart | Ns16550 | Pl011 | NrfUart

  // APBUART control register (mod/serial/apbuart/impl.c)
  const APBUART_CTRL_FA: bv32 := 1 << 31
  const APBUART_CTRL_DB: bv32 := 1 << 11
  const APBUART_CTRL_LB: bv32 := 1 << 7
  const APBUART_CTRL_FL: bv32 := 1 << 6
  const APBUART_CTRL_TI: bv32 := 1 << 3
  const APBUART_CTRL_RI: bv32 := 1 << 2
  const APBUART_CTRL_TE: bv32 := 1 << 1
  const APBUART_CTRL_RE: bv32 := 1 << 0

  // APBUART status register
  const APBUART_STATUS_TF: bv32 := 1 << 9
  const APBUART_STATUS_TE: bv32 := 1 << 2
  const APBUART_STATUS_DR: bv32 := 1 << 0

  // PL011 flag register
  const FR_TXFF: bv32 := 0x20
  const FR_RXFE: bv32 := 0x10

  // NS16550 line status register
  const LSR_THRE: bv32 := 0x20
  const LSR_RDA: bv32 := 0x01

  /** fifo_available: bit FA of the control word read at inithw. */
  function FifoAvailable(ctrl: bv32): bool
  {
    ctrl & APBUART_CTRL_FA != 0
  }

  /**
   * txfull: with the FIFO, the transmitter FIFO full bit; without it, the
   * holding register is full while it is not empty.
   */
  function TxFull(fifo: bool, status: bv32): bool
  {
    if fifo then status & APBUART_STATUS_TF != 0 else status & APBUART_STATUS_TE == 0
  }

  /** With the FIFO only TF counts, without it only TE. */
  lemma {:induction false} TxFullBits(s1: bv32, s2: bv32)
    ensures s1 & APBUART_STATUS_TF == s2 & APBUART_STATUS_TF ==> TxFull(true, s1) == TxFull(true, s2)
    ensures s1 & APBUART_STATUS_TE == s2 & APBUART_STATUS_TE ==> TxFull(false, s1) == TxFull(false, s2)
    ensures TxFull(true, APBUART_STATUS_TF) && !TxFull(true, APBUART_STATUS_TE)
    ensures TxFull(false, APBUART_STATUS_TF) && !TxFull(false, APBUART_STATUS_TE)
  {
  }

  /**
   * Whether a status word read during a transmit loop lets the driver
   * write the next byte: APBUART and PL011 while the transmitter is not
   * full, NS16550 while the holding register is empty, nRF while the
   * TXDRDY event is set.
   */
  function Ready(chip: Chip, fifo: bool, word: bv32): bool
  {
    match chip
    case Apbuart => !TxFull(fifo, word)
    case Pl011 => word & FR_TXFF == 0
    case Ns16550 => word & LSR_THRE != 0
    case NrfUart => word != 0
  }

  /** How many received bytes one isr_rx call takes from the hardware (rxdata[]). */
  function RxBurst(chip: Chip): (n: nat)
    ensures 0 < n <= 32
  {
    match chip
    case Apbuart => 32
    case Ns16550 => 16
    case Pl011 => 32
    case NrfUart => 8
  }

  /**
   * inithw's new control word: a debug configuration (FL set) keeps FL, LB
   * and DB, otherwise everything is cleared; then the receiver, its
   * interrupt and the transmitter are enabled.
   */
  function InitCtrl(ctrl: bv32): bv32
  {
    (if ctrl & APBUART_CTRL_FL != 0
     then ctrl & (APBUART_CTRL_FL | APBUART_CTRL_LB | APBUART_CTRL_DB)
     else 0)
    | APBUART_CTRL_RI | APBUART_CTRL_TE | APBUART_CTRL_RE
  }

  /**
   * After inithw the receiver, its interrupt and the transmitter are on,
   * the transmitter interrupt is off, no other bit is set, and FL, LB and
   * DB are the old ones exactly when FL was set.
   */
  lemma {:induction false} InitCtrlBits(ctrl: bv32)
    ensures var c := InitCtrl(ctrl);
      && c & (APBUART_CTRL_RI | APBUART_CTRL_TE | APBUART_CTRL_RE) == APBUART_CTRL_RI | APBUART_CTRL_TE | APBUART_CTRL_RE
      && c & APBUART_CTRL_TI == 0
      && c & !(APBUART_CTRL_FL | APBUART_CTRL_LB | APBUART_CTRL_DB | APBUART_CTRL_RI | APBUART_CTRL_TE | APBUART_CTRL_RE) == 0
      && (ctrl & APBUART_CTRL_FL != 0 ==>
            c & (APBUART_CTRL_FL | APBUART_CTRL_LB | APBUART_CTRL_DB) == ctrl & (APBUART_CTRL_FL | APBUART_CTRL_LB | APBUART_CTRL_DB))
      && (ctrl & APBUART_CTRL_FL == 0 ==> c & (APBUART_CTRL_FL | APBUART_CTRL_LB | APBUART_CTRL_DB) == 0)
  {
  }

  /**
   * finihw's new control word: with DB (debug) set only the two interrupt
   * enables go off, otherwise the whole word is cleared.
   */
  function FiniCtrl(ctrl: bv32): bv32
  {
    if ctrl & APBUART_CTRL_DB != 0 then ctrl & !(APBUART_CTRL_RI | APBUART_CTRL_TI) else 0
  }

  /** After finihw no interrupt is enabled, and a debug configuration is otherwise kept. */
  lemma {:induction false} FiniCtrlBits(ctrl: bv32)
    ensures FiniCtrl(ctrl) & (APBUART_CTRL_RI | APBUART_CTRL_TI) == 0
    ensures ctrl & APBUART_CTRL_DB != 0 ==>
      FiniCtrl(ctrl) | (ctrl & (APBUART_CTRL_RI | APBUART_CTRL_TI)) == ctrl
    ensures ctrl & APBUART_CTRL_DB == 0 ==> FiniCtrl(ctrl) == 0
  {
  }

  // NS16550 register codes: offset, plus a read bit and a write bit
  const REG_R: bv8 := 8
  const REG_W: bv8 := 16
  const REG_RW: bv8 := REG_R | REG_W
  const REG_RBR: bv8 := 0 + REG_R
  const REG_THR: bv8 := 0 + REG_W
  const REG_IER: bv8 := 1 + REG_RW
  const REG_IIR: bv8 := 2 + REG_R
  const REG_FCR: bv8 := 2 + REG_W
  const REG_LCR: bv8 := 3 + REG_RW
  const REG_MCR: bv8 := 4 + REG_RW
  const REG_LSR: bv8 := 5 + REG_R
  const REG_MSR: bv8 := 6 + REG_R
  const REG_RCR: bv8 := 7 + REG_RW
  const REG_DLL: bv8 := 0 + REG_RW
  const REG_DLM: bv8 := 1 + REG_RW

  /** The register write_reg and read_reg touch: regs[reg & 0x7]. */
  function RegIndex(reg: bv8): (i: bv8)
    ensures i < 8
  {
    reg & 0x7
  }

  /** A code write_reg accepts (its KASSERT). */
  predicate Writable(reg: bv8) { reg & REG_W != 0 }

  /** A code read_reg accepts (its KASSERT). */
  predicate Readable(reg: bv8) { reg & REG_R != 0 }

  /** The code of register off with the given access bits. */
  function RegCode(off: bv3, r: bool, w: bool): bv8
  {
    off as bv8 | (if r then REG_R else 0) | (if w then REG_W else 0)
  }

  /** A code names its offset, and its access bits are exactly the ones it was built with. */
  lemma {:induction false} RegCodeFields(off: bv3, r: bool, w: bool)
    ensures RegIndex(RegCode(off, r, w)) == off as bv8
    ensures Readable(RegCode(off, r, w)) == r && Writable(RegCode(off, r, w)) == w
  {
  }

  /** The named registers are the codes of their offsets and access modes. */
  lemma {:induction false} RegisterMap()
    ensures REG_RBR == RegCode(0, true, false) && REG_THR == RegCode(0, false, true)
    ensures REG_IER == RegCode(1, true, true) && REG_IIR == RegCode(2, true, false)
    ensures REG_FCR == RegCode(2, false, true) && REG_LCR == RegCode(3, true, true)
    ensures REG_MCR == RegCode(4, true, true) && REG_LSR == RegCode(5, true, false)
    ensures REG_MSR == RegCode(6, true, false) && REG_RCR == RegCode(7, true, true)
    ensures REG_DLL == RegCode(0, true, true) && REG_DLM == RegCode(1, true, true)
  {
  }

  // NS16550 interrupt identification register
  const IIR_NIP: bv8 := 0x01
  const IIR_WHY: bv8 := 0x0e
  const IIR_CT: bv8 := 0x0c
  const IIR_RDA: bv8 := 0x04
  const IIR_THRE: bv8 := 0x02

  /** What the NS16550 isr does for one IIR value. */
  datatype Cause = NoneLeft | Receive | Transmit | Other

  function CauseOf(iir: bv8): Cause
  {
    if iir & IIR_NIP != 0 then NoneLeft
    else if iir & IIR_WHY == IIR_CT || iir & IIR_WHY == IIR_RDA then Receive
    else if iir & IIR_WHY == IIR_THRE then Transmit
    else Other
  }

  /**
   * The isr loop stops at NIP; otherwise a character timeout or data
   * available calls isr_rx, an empty holding register isr_tx, and line or
   * modem status changes nothing.
   */
  lemma {:induction false} CauseOfBits(iir: bv8)
    ensures CauseOf(iir) == NoneLeft <==> iir & 1 == 1
    ensures CauseOf(iir) == Receive <==> iir & 1 == 0 && (iir & 0x0e == 0x0c || iir & 0x0e == 0x04)
    ensures CauseOf(iir) == Transmit <==> iir & 1 == 0 && iir & 0x0e == 0x02
    ensures CauseOf(iir) == Other <==> iir & 1 == 0 && (iir & 0x0e == 0x06 || iir & 0x0e == 0x00 || iir & 0x0e == 0x08 || iir & 0x0e == 0x0a || iir & 0x0e == 0x0e)
  {
  }

  /** The handlers the isr calls for a run of IIR reads, up to the first NIP. */
  function Handlers(iirs: seq<bv8>): seq<Cause>
  {
    if iirs == [] || CauseOf(iirs[0]) == NoneLeft then []
    else if CauseOf(iirs[0]) == Other then Handlers(iirs[1..])
    else [CauseOf(iirs[0])] + Handlers(iirs[1..])
  }

  /** Every handler call is a receive or a transmit, at most one per IIR read. */
  lemma {:induction false} HandlersCalled(iirs: seq<bv8>)
    ensures |Handlers(iirs)| <= |iirs|
    ensures forall k :: 0 <= k < |Handlers(iirs)| ==> Handlers(iirs)[k] in {Receive, Transmit}
  {
    if iirs != [] && CauseOf(iirs[0]) != NoneLeft {
      HandlersCalled(iirs[1..]);
    }
  }

  /** No handler runs once the IIR says no interrupt is pending. */
  lemma {:induction false} HandlersStopAtNip(iirs: seq<bv8>, k: nat)
    requires k < |iirs| && iirs[k] & IIR_NIP != 0
    ensures Handlers(iirs) == Handlers(iirs[..k])
  {
    if k == 0 {
    } else if CauseOf(iirs[0]) != NoneLeft {
      assert iirs[1..][k - 1] == iirs[k];
      HandlersStopAtNip(iirs[1..], k - 1);
      assert iirs[..k][1..] == iirs[1..][..k - 1];
    } else {
      assert iirs[..k][0] == iirs[0];
    }
  }

  /**
   * isr (NS16550): reads the IIR until no interrupt is pending and calls
   * the receive or transmit handler for each cause.  The IIR values are
   * iirs in read order; once they run out none is pending.
   */
  method Isr(iirs: seq<bv8>) returns (calls: seq<Cause>)
    ensures calls == Handlers(iirs)
  {
    calls := [];
    var k := 0;
    while k < |iirs|
      invariant 0 <= k <= |iirs|
      invariant calls + Handlers(iirs[k..]) == Handlers(iirs)
    {
      var iir := iirs[k];
      if iir & IIR_NIP != 0 {
        break;
      }
      var c := CauseOf(iir);
      if c == Receive || c == Transmit {
        calls := calls + [c];
      }
      assert iirs[k..][1..] == iirs[k + 1..];
      k := k + 1;
    }
  }
}
