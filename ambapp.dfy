/**
 * The AMBA plug&play scan of the GRLIB root driver (mod/ambapp/impl.c).
 *
 * The plug&play configuration area describes each AHB slave by an
 * identification word, three user words and four bank address registers
 * (BARs), and each APB slave by an identification word and one BAR.  The
 * decoders take those words apart; the scans walk the slots, skip the
 * empty ones (vendor 0) and register a device for each of the others.
 *
 * Words are `bv32`, as on the 32-bit GRLIB targets, and address arithmetic
 * wraps as 32-bit pointer arithmetic does.  Memory is the function `mem`
 * from an address to the word there, read-only during a scan.  The device
 * records handed to lAddExpansionDev are the sequence `devs`, in call order;
 * whether each lAllocMem finds memory is `allocOk`, indexed by the number of
 * earlier allocation attempts.
 */
module Ambapp {

  const AMBAPP_VENDOR_GAISLER: bv32 := 0x01
  const AMBAPP_GAISLER_APBCTRL: bv32 := 0x006
  const AMBAPP_GAISLER_GPTIMER: bv32 := 0x011
  const AMBAPP_GAISLER_AHB2AHB: bv32 := 0x020

  /** The APB controller serves up to 16 slaves. */
  const APB_SLOTS := 16
  /** The configuration area holds 63 AHB slave records. */
  const AHB_SLOTS := 63
  /** Where the configuration area lies below an I/O area or an APB base. */
  const CFG_OFFSET: bv32 := 0x000ff000
  /** The 64 AHB master records come first, 32 bytes each. */
  const SLAVE_OFFSET: bv32 := 64 * 32
  /** The base of the I/O area the root scan starts from. */
  const IOBASE: bv32 := 0xfff00000

  datatype BarKind = Unknown | ApbIo | AhbMem | AhbIo

  /** One decoded bank: its address, its mask and what kind it is. */
  datatype Bar = Bar(addr: bv32, mask: bv32, kind: BarKind)

  /** struct grlib_dev: a decoded slave record. */
  datatype Grlib = Grlib(vendor: bv32, device: bv32, irq: bv32, ver: bv32, user: seq<bv32>, bars: seq<Bar>)

  /** A record as the decoders leave it: three user words and four banks. */
  type Record = g: Grlib | |g.user| == 3 && |g.bars| == 4
    witness Grlib(0, 0, 0, 0, [0, 0, 0], [Bar(0, 0, Unknown), Bar(0, 0, Unknown), Bar(0, 0, Unknown), Bar(0, 0, Unknown)])

  /** A bank as a device record keeps it: its address and its mask. */
  datatype Bank = Bank(addr: bv32, mask: bv32)

  /** struct AmbappDev as lAddExpansionDev receives it: an AHB slave with four banks, or an APB slave with one. */
  datatype AmbappDev =
    | AhbDev(vendor: bv32, device: bv32, version: bv32, irq: bv32, banks: seq<Bank>)
    | ApbDev(vendor: bv32, device: bv32, version: bv32, irq: bv32, bank: Bank)

  /** struct AmbappCompat: one entry of a driver's compatibility table. */
  datatype Compat = Compat(vendor: bv32, device: bv32)

  // Fields of the identification word

  function IdVendor(id: bv32): (r: bv32)
    ensures r < 0x100
  {
    (id >> 24) & 0xff
  }

  function IdDevice(id: bv32): (r: bv32)
    ensures r < 0x1000
  {
    (id >> 12) & 0xfff
  }

  function IdVer(id: bv32): (r: bv32)
    ensures r < 0x20
  {
    (id >> 5) & 0x1f
  }

  /** id_irq: bits 11..10 are ORed into the low bits of the interrupt number in bits 4..0. */
  function IdIrq(id: bv32): (r: bv32)
    ensures r < 0x20
  {
    ((id >> 10) & 0x3) | (id & 0x1f)
  }

  function BarType(bar: bv32): (r: bv32)
    ensures r < 0x10
  {
    bar & 0xf
  }

  /** An identification word laid out from its fields. */
  function IdWord(vendor: bv8, device: bv12, cfg: bv2, ver: bv5, irq: bv5): bv32
  {
    ((vendor as bv32) << 24) | ((device as bv32) << 12) | ((cfg as bv32) << 10) | ((ver as bv32) << 5) | (irq as bv32)
  }

  /**
   * The decoders give back the fields an identification word was laid out
   * from; bits 11..10 end up in the interrupt number.
   */
  lemma {:induction false} IdFields(vendor: bv8, device: bv12, cfg: bv2, ver: bv5, irq: bv5)
    ensures var id := IdWord(vendor, device, cfg, ver, irq);
      (&& IdVendor(id) == vendor as bv32 && IdDevice(id) == device as bv32
       && IdVer(id) == ver as bv32 && IdIrq(id) == (cfg as bv32) | (irq as bv32))
  {
  }

  // Bank address registers

  /**
   * One BAR of an AHB slave record, decoded relative to the I/O area base.
   * The mask of an I/O bank is taken from bits 15..4 into bits 19..8, as
   * for an APB bank.
   */
  function AhbBar(bar: bv32, base: bv32): Bar
  {
    match BarType(bar)
    case 2 => Bar(bar & 0xfff00000, (bar << 16) & 0xfff00000, AhbMem)
    case 3 => Bar(((bar >> 12) & 0x000fff00) | base, (bar << 4) & 0x000fff00, AhbIo)
    case _ => Bar(0, 0, Unknown)
  }

  /** decode_ahb's BAR decoding as written: the mask of an I/O bank is the word shifted left by 8. */
  function AhbBarAsWritten(bar: bv32, base: bv32): Bar
  {
    match BarType(bar)
    case 2 => Bar(bar & 0xfff00000, (bar << 16) & 0xfff00000, AhbMem)
    case 3 => Bar(((bar >> 12) & 0x000fff00) | base, (bar << 8) & 0x000fff00, AhbIo)
    case _ => Bar(0, 0, Unknown)
  }

  /** The BAR of an APB slave, decoded relative to the APB base. */
  function ApbBar(bar: bv32, base: bv32): Bar
  {
    if BarType(bar) == 1 then Bar(((bar >> 12) & 0x000fff00) | base, ((bar << 4) & 0x000fff00) | 0xfff00000, ApbIo)
    else Bar(0, 0, Unknown)
  }

  /** A BAR laid out from its 12-bit address and mask fields and its type. */
  function BarWord(addr: bv12, mask: bv12, kind: bv4): bv32
  {
    ((addr as bv32) << 20) | ((mask as bv32) << 4) | (kind as bv32)
  }

  /**
   * An AHB memory bank covers 1 MiB units: the address and the mask are
   * the 12-bit fields moved to the top of the word.
   */
  lemma {:induction false} AhbMemFields(addr: bv12, mask: bv12, base: bv32)
    ensures AhbBar(BarWord(addr, mask, 2), base) == Bar((addr as bv32) << 20, (mask as bv32) << 20, AhbMem)
  {
  }

  /**
   * An AHB I/O bank covers 256-byte units of the I/O area: both fields
   * land in bits 19..8, and the address is ORed into the area's base.
   */
  lemma {:induction false} AhbIoFields(addr: bv12, mask: bv12, base: bv32)
    ensures AhbBar(BarWord(addr, mask, 3), base) == Bar(((addr as bv32) << 8) | base, (mask as bv32) << 8, AhbIo)
  {
  }

  /**
   * As written, the mask of an I/O bank keeps only the low 8 bits of the
   * mask field, in bits 19..12, and picks up the type in bits 11..8: a
   * full mask field 0xfff comes out as 0x000ff300 instead of 0x000fff00.
   */
  lemma {:induction false} AhbIoMaskAsWritten(addr: bv12, mask: bv12, base: bv32)
    ensures AhbBarAsWritten(BarWord(addr, mask, 3), base).mask == (((mask as bv32) << 12) & 0x000ff000) | 0x300
    ensures AhbBarAsWritten(BarWord(0, 0xfff, 3), 0).mask == 0x000ff300 != AhbBar(BarWord(0, 0xfff, 3), 0).mask
  {
  }

  /** The two decodings differ only in the mask of an I/O bank. */
  lemma {:induction false} AsWrittenOnlyIoMask(bar: bv32, base: bv32)
    ensures AhbBarAsWritten(bar, base).addr == AhbBar(bar, base).addr
    ensures AhbBarAsWritten(bar, base).kind == AhbBar(bar, base).kind
    ensures AhbBar(bar, base).kind != AhbIo ==> AhbBarAsWritten(bar, base) == AhbBar(bar, base)
  {
  }

  /**
   * An APB bank covers 256-byte units of the APB area; its mask always
   * keeps the top 12 bits, so it never leaves the area.
   */
  lemma {:induction false} ApbIoFields(addr: bv12, mask: bv12, base: bv32)
    ensures ApbBar(BarWord(addr, mask, 1), base) == Bar(((addr as bv32) << 8) | base, ((mask as bv32) << 8) | 0xfff00000, ApbIo)
  {
  }

  /** A BAR of any other type decodes to an unknown bank with no address and no mask. */
  lemma {:induction false} OtherBarsUnknown(bar: bv32, base: bv32)
    ensures BarType(bar) != 2 && BarType(bar) != 3 ==> AhbBar(bar, base) == Bar(0, 0, Unknown)
    ensures BarType(bar) != 1 ==> ApbBar(bar, base) == Bar(0, 0, Unknown)
    ensures AhbBar(bar, base).kind != ApbIo && ApbBar(bar, base).kind in {Unknown, ApbIo}
  {
  }

  // Slave records

  /** decode_ahb: the fields of the identification word, the user words and the four banks. */
  function DecodeAhb(id: bv32, user: seq<bv32>, bars: seq<bv32>, base: bv32): (g: Record)
    requires |user| == 3 && |bars| == 4
  {
    Grlib(IdVendor(id), IdDevice(id), IdIrq(id), IdVer(id), user,
          [AhbBar(bars[0], base), AhbBar(bars[1], base), AhbBar(bars[2], base), AhbBar(bars[3], base)])
  }

  /** decode_apb: the fields of the identification word and the one bank; the user words stay 0. */
  function DecodeApb(id: bv32, bar: bv32, base: bv32): (g: Record)
  {
    Grlib(IdVendor(id), IdDevice(id), IdIrq(id), IdVer(id), [0, 0, 0],
          [ApbBar(bar, base), Bar(0, 0, Unknown), Bar(0, 0, Unknown), Bar(0, 0, Unknown)])
  }

  /** The address of word k of AHB slave record i in the configuration area of an I/O area. */
  function AhbWord(ioarea: bv32, i: nat, k: nat): bv32
    requires i < AHB_SLOTS && k < 8
  {
    (ioarea | CFG_OFFSET) + SLAVE_OFFSET + (32 * i + 4 * k) as bv32
  }

  /** The AHB slave record i of an I/O area, read from memory and decoded. */
  function AhbSlot(mem: bv32 -> bv32, ioarea: bv32, i: nat): Record
    requires i < AHB_SLOTS
  {
    DecodeAhb(mem(AhbWord(ioarea, i, 0)),
              [mem(AhbWord(ioarea, i, 1)), mem(AhbWord(ioarea, i, 2)), mem(AhbWord(ioarea, i, 3))],
              [mem(AhbWord(ioarea, i, 4)), mem(AhbWord(ioarea, i, 5)), mem(AhbWord(ioarea, i, 6)), mem(AhbWord(ioarea, i, 7))],
              ioarea)
  }

  /** The APB slave i of an APB base: its identification word and its BAR. */
  function ApbSlot(mem: bv32 -> bv32, base: bv32, i: nat): Record
    requires i < APB_SLOTS
  {
    var cfg := base | CFG_OFFSET;
    DecodeApb(mem(cfg + (8 * i) as bv32), mem(cfg + (8 * i + 4) as bv32), base)
  }

  /** The 63 AHB slave records of an I/O area, in slot order. */
  function AhbSlots(mem: bv32 -> bv32, ioarea: bv32): (gs: seq<Record>)
    ensures |gs| == AHB_SLOTS
  {
    seq(AHB_SLOTS, i requires 0 <= i < AHB_SLOTS => AhbSlot(mem, ioarea, i))
  }

  /** The 16 APB slave records of an APB base, in slot order. */
  function ApbSlots(mem: bv32 -> bv32, base: bv32): (gs: seq<Record>)
    ensures |gs| == APB_SLOTS
  {
    seq(APB_SLOTS, i requires 0 <= i < APB_SLOTS => ApbSlot(mem, base, i))
  }

  // Compatibility tables

  /** bus_ismatch: the table is read up to its first entry with vendor 0. */
  function IsMatch(compat: seq<Compat>, vendor: bv32, device: bv32): bool
  {
    if compat == [] || compat[0].vendor == 0 then false
    else (compat[0].vendor == vendor && compat[0].device == device) || IsMatch(compat[1..], vendor, device)
  }

  /** The entries before the first one with vendor 0. */
  function Listed(compat: seq<Compat>): (n: nat)
    ensures n <= |compat|
    ensures forall k :: 0 <= k < n ==> compat[k].vendor != 0
    ensures n < |compat| ==> compat[n].vendor == 0
  {
    if compat == [] || compat[0].vendor == 0 then 0 else 1 + Listed(compat[1..])
  }

  /**
   * A driver matches a device exactly when an entry before the table's
   * terminator names the device's vendor and device.
   */
  lemma {:induction false} IsMatchListed(compat: seq<Compat>, vendor: bv32, device: bv32)
    ensures IsMatch(compat, vendor, device) <==>
      exists k :: 0 <= k < Listed(compat) && compat[k] == Compat(vendor, device)
  {
    if compat != [] && compat[0].vendor != 0 {
      IsMatchListed(compat[1..], vendor, device);
      if IsMatch(compat[1..], vendor, device) {
        var k :| 0 <= k < Listed(compat[1..]) && compat[1..][k] == Compat(vendor, device);
        assert compat[k + 1] == Compat(vendor, device);
      }
      if exists k :: 0 <= k < Listed(compat) && compat[k] == Compat(vendor, device) {
        var k :| 0 <= k < Listed(compat) && compat[k] == Compat(vendor, device);
        if k > 0 {
          assert compat[1..][k - 1] == Compat(vendor, device);
        }
      }
    }
  }

  // Bus frequency

  /**
   * maybe_set_freq: while the bus has no frequency, a timer whose reload is
   * not 0 gives it (reload + 1) MHz.  The product is computed in 32-bit
   * unsigned arithmetic.
   */
  function SetFreq(hz: int, reload: bv32): int
  {
    if hz == 0 && reload != 0 then Mhz(reload) else hz
  }

  /** The reload register of a timer: the word after its base address. */
  function TimerReload(mem: bv32 -> bv32, gptimer: bv32): bv32
  {
    mem(gptimer + 4)
  }

  /** (reload + 1) * 1000 * 1000 in 32-bit unsigned arithmetic: it wraps modulo 2^32. */
  function Mhz(reload: bv32): int
  {
    ((reload as int + 1) * 1000 * 1000) % 0x1_0000_0000
  }

  /**
   * The first timer with a non-zero reload sets the frequency, and later
   * ones leave it; below 4294 MHz no 32-bit wrap-around happens.
   */
  lemma {:induction false} FirstReloadWins(hz: int, reload: bv32)
    ensures hz != 0 ==> SetFreq(hz, reload) == hz
    ensures reload == 0 ==> SetFreq(hz, reload) == hz
    ensures hz == 0 && 0 < reload < 4294 ==> SetFreq(hz, reload) == (reload as int + 1) * 1000000
  {
    if hz == 0 && 0 < reload < 4294 {
      assert (reload as int + 1) * 1000 * 1000 <= 4294 * 1000000 < 0x1_0000_0000;
    }
  }

  // Scans

  /** What a scan has done so far: the bus frequency, the devices added and the allocations tried. */
  datatype Scan = Scan(hz: int, devs: seq<AmbappDev>, allocs: nat)

  /** One allocation attempt: the device is added when lAllocMem finds memory. */
  function Add(s: Scan, dev: AmbappDev, allocOk: nat -> bool): Scan
  {
    Scan(s.hz, if allocOk(s.allocs) then s.devs + [dev] else s.devs, s.allocs + 1)
  }

  /** The record scan_apb makes of an APB slave. */
  function ApbRecord(g: Record): AmbappDev
  {
    ApbDev(g.vendor, g.device, g.ver, g.irq, BankOf(g.bars[0]))
  }

  /** The record scan_ahb makes of an AHB slave. */
  function AhbRecord(g: Record): AmbappDev
  {
    AhbDev(g.vendor, g.device, g.ver, g.irq, [BankOf(g.bars[0]), BankOf(g.bars[1]), BankOf(g.bars[2]), BankOf(g.bars[3])])
  }

  function BankOf(b: Bar): Bank
  {
    Bank(b.addr, b.mask)
  }

  /** Whether a slave is a GPTIMER, whose reload may set the bus frequency. */
  predicate IsTimer(g: Grlib)
  {
    g.vendor == AMBAPP_VENDOR_GAISLER && g.device == AMBAPP_GAISLER_GPTIMER
  }

  /**
   * The plug&play information as the scans see it: the decoded slave
   * records of each I/O area and of each APB base, and each timer's reload
   * register.
   */
  datatype Plug = Plug(ahb: bv32 -> seq<Record>, apb: bv32 -> seq<Record>, reload: bv32 -> bv32)

  /** What a memory holds, as the scans see it. */
  function PlugOf(mem: bv32 -> bv32): Plug
  {
    Plug(a => AhbSlots(mem, a), b => ApbSlots(mem, b), t => TimerReload(mem, t))
  }

  lemma {:induction false} PlugOfReads(mem: bv32 -> bv32, a: bv32)
    ensures PlugOf(mem).ahb(a) == AhbSlots(mem, a)
    ensures PlugOf(mem).apb(a) == ApbSlots(mem, a)
    ensures PlugOf(mem).reload(a) == TimerReload(mem, a)
  {
  }

  /** One slot of scan_apb: a slave with a vendor is added, and a timer may set the frequency first. */
  function ApbStep(s: Scan, p: Plug, g: Record, allocOk: nat -> bool): Scan
  {
    if g.vendor == 0 then s
    else
      var s1 := if IsTimer(g) then s.(hz := SetFreq(s.hz, p.reload(g.bars[0].addr))) else s;
      Add(s1, ApbRecord(g), allocOk)
  }

  /** scan_apb over the remaining slots, in slot order. */
  function ApbScan(s: Scan, p: Plug, slots: seq<Record>, allocOk: nat -> bool): Scan
    decreases |slots|
  {
    if slots == [] then s else ApbScan(ApbStep(s, p, slots[0], allocOk), p, slots[1..], allocOk)
  }

  /** The slot leads to another AHB area behind a bridge. */
  predicate IsBridge(g: Record)
  {
    g.vendor == AMBAPP_VENDOR_GAISLER && g.device == AMBAPP_GAISLER_AHB2AHB && g.user[1] != 0
  }

  /** The slot is the APB controller, whose first bank is the APB base. */
  predicate IsApbCtrl(g: Grlib)
  {
    g.vendor == AMBAPP_VENDOR_GAISLER && g.device == AMBAPP_GAISLER_APBCTRL
  }

  /**
   * One slot of scan_ahb: a slave with a vendor is added; a bridge is
   * followed into its own I/O area (at most `fuel` bridges deep), and the
   * APB controller's area is scanned.
   */
  function AhbStep(s: Scan, p: Plug, g: Record, allocOk: nat -> bool, fuel: nat): Scan
    decreases fuel, 0, 1
  {
    if g.vendor == 0 then s else AhbBehind(Add(s, AhbRecord(g), allocOk), p, g, allocOk, fuel)
  }

  /** What scan_ahb does after adding a slave: follow a bridge, or scan the APB controller's area. */
  function AhbBehind(s: Scan, p: Plug, g: Record, allocOk: nat -> bool, fuel: nat): Scan
    decreases fuel, 0, 0
  {
    if IsBridge(g) then (if fuel == 0 then s else AhbScan(s, p, p.ahb(g.user[1]), allocOk, Below(fuel)))
    else if IsApbCtrl(g) then ApbScan(s, p, p.apb(g.bars[0].addr & g.bars[0].mask), allocOk)
    else s
  }

  /** scan_ahb over the remaining slots, in slot order. */
  function AhbScan(s: Scan, p: Plug, slots: seq<Record>, allocOk: nat -> bool, fuel: nat): Scan
    decreases fuel, |slots|, 1
  {
    if slots == [] then s else AhbScan(AhbStep(s, p, slots[0], allocOk, fuel), p, slots[1..], allocOk, fuel)
  }

  /** The bridges a scan may still follow after following one. */
  function Below(fuel: nat): nat
    requires fuel > 0
  {
    fuel - 1
  }

  /** Every device a scan adds has a vendor: empty slots are skipped. */
  predicate Vendored(devs: seq<AmbappDev>)
  {
    forall k :: 0 <= k < |devs| ==> devs[k].vendor != 0
  }

  /** What a scan keeps: it only appends devices with a vendor, tries an allocation for each, and keeps a frequency once set. */
  predicate Grows(s: Scan, r: Scan)
  {
    && s.devs <= r.devs && Vendored(r.devs)
    && |r.devs| - |s.devs| <= r.allocs - s.allocs
    && (s.hz != 0 ==> r.hz == s.hz)
  }

  lemma {:induction false} GrowsTrans(s: Scan, t: Scan, r: Scan)
    requires Grows(s, t) && Grows(t, r)
    ensures Grows(s, r)
  {
  }

  /** One APB slot adds at most one device, with a vendor, and tries one allocation for it. */
  lemma {:induction false} ApbStepGrows(s: Scan, p: Plug, g: Record, allocOk: nat -> bool)
    requires Vendored(s.devs)
    ensures Grows(s, ApbStep(s, p, g, allocOk))
    ensures ApbStep(s, p, g, allocOk).allocs - s.allocs <= 1
  {
    if g.vendor != 0 {
      FirstReloadWins(s.hz, p.reload(g.bars[0].addr));
    }
  }

  /**
   * scan_apb only appends, at most one device per remaining slot, and only
   * devices with a vendor; one allocation is tried per device found.
   */
  lemma {:induction false} ApbScanAppends(s: Scan, p: Plug, slots: seq<Record>, allocOk: nat -> bool)
    requires Vendored(s.devs)
    ensures Grows(s, ApbScan(s, p, slots, allocOk))
    ensures ApbScan(s, p, slots, allocOk).allocs - s.allocs <= |slots|
    decreases |slots|
  {
    if slots != [] {
      var t := ApbStep(s, p, slots[0], allocOk);
      ApbStepGrows(s, p, slots[0], allocOk);
      ApbScanAppends(t, p, slots[1..], allocOk);
      GrowsTrans(s, t, ApbScan(t, p, slots[1..], allocOk));
    }
  }

  /** The record scan_apb makes of a slot, if the slot has a vendor. */
  function ApbFoundAt(g: Record): seq<AmbappDev>
  {
    if g.vendor == 0 then [] else [ApbRecord(g)]
  }

  /** The records scan_apb makes of the slots with a vendor, in slot order. */
  function ApbFound(slots: seq<Record>): seq<AmbappDev>
  {
    if slots == [] then [] else ApbFoundAt(slots[0]) + ApbFound(slots[1..])
  }

  lemma {:induction false} ApbStepAddsFound(s: Scan, p: Plug, g: Record, allocOk: nat -> bool)
    requires forall n :: allocOk(n)
    ensures ApbStep(s, p, g, allocOk).devs == s.devs + ApbFoundAt(g)
    ensures ApbStep(s, p, g, allocOk).allocs == s.allocs + |ApbFoundAt(g)|
  {
    if g.vendor != 0 {
      assert allocOk(s.allocs);
    }
  }

  /**
   * When every allocation succeeds, scan_apb registers exactly the slaves
   * with a vendor, in slot order, and tries one allocation for each.
   */
  lemma {:induction false} ApbScanAddsFound(s: Scan, p: Plug, slots: seq<Record>, allocOk: nat -> bool)
    requires forall n :: allocOk(n)
    ensures ApbScan(s, p, slots, allocOk).devs == s.devs + ApbFound(slots)
    ensures ApbScan(s, p, slots, allocOk).allocs == s.allocs + |ApbFound(slots)|
    decreases |slots|
  {
    if slots != [] {
      var t := ApbStep(s, p, slots[0], allocOk);
      ApbStepAddsFound(s, p, slots[0], allocOk);
      ApbScanAddsFound(t, p, slots[1..], allocOk);
      assert (s.devs + ApbFoundAt(slots[0])) + ApbFound(slots[1..]) == s.devs + (ApbFoundAt(slots[0]) + ApbFound(slots[1..]));
    }
  }

  /** One AHB slot, with everything behind it, only appends devices with a vendor. */
  lemma {:induction false} AhbStepGrows(s: Scan, p: Plug, g: Record, allocOk: nat -> bool, fuel: nat)
    requires Vendored(s.devs)
    ensures Grows(s, AhbStep(s, p, g, allocOk, fuel))
    decreases fuel, 0, 1
  {
    if g.vendor != 0 {
      var s1 := Add(s, AhbRecord(g), allocOk);
      AhbBehindGrows(s1, p, g, allocOk, fuel);
      GrowsTrans(s, s1, AhbBehind(s1, p, g, allocOk, fuel));
    }
  }

  lemma {:induction false} AhbBehindGrows(s: Scan, p: Plug, g: Record, allocOk: nat -> bool, fuel: nat)
    requires Vendored(s.devs)
    ensures Grows(s, AhbBehind(s, p, g, allocOk, fuel))
    decreases fuel, 0, 0
  {
    if IsBridge(g) {
      if fuel > 0 {
        AhbScanAppends(s, p, p.ahb(g.user[1]), allocOk, Below(fuel));
      }
    } else if IsApbCtrl(g) {
      ApbScanAppends(s, p, p.apb(g.bars[0].addr & g.bars[0].mask), allocOk);
    }
  }

  /** scan_ahb only appends devices with a vendor, and keeps a frequency once set. */
  lemma {:induction false} AhbScanAppends(s: Scan, p: Plug, slots: seq<Record>, allocOk: nat -> bool, fuel: nat)
    requires Vendored(s.devs)
    ensures Grows(s, AhbScan(s, p, slots, allocOk, fuel))
    decreases fuel, |slots|, 1
  {
    if slots != [] {
      var t := AhbStep(s, p, slots[0], allocOk, fuel);
      AhbStepGrows(s, p, slots[0], allocOk, fuel);
      AhbScanAppends(t, p, slots[1..], allocOk, fuel);
      GrowsTrans(s, t, AhbScan(t, p, slots[1..], allocOk, fuel));
    }
  }

  /** The private data of an AMBA bus: its frequency, and the devices the scan registered on it. */
  class AmbappBus {
    var hz: int
    var devs: seq<AmbappDev>
    var allocs: nat

    constructor ()
      ensures hz == 0 && devs == [] && allocs == 0
    {
      hz := 0;
      devs := [];
      allocs := 0;
    }

    function State(): Scan
      reads this
    {
      Scan(hz, devs, allocs)
    }

    /** maybe_set_freq: the timer's reload register is the word after its base. */
    method MaybeSetFreq(mem: bv32 -> bv32, gptimer: bv32)
      modifies this`hz
      ensures hz == SetFreq(old(hz), TimerReload(mem, gptimer))
    {
      if hz == 0 {
        var reload := mem(gptimer + 4);
        if reload != 0 {
          hz := Mhz(reload);
        }
      }
    }

    /** lAllocMem of a device record and, when it succeeds, lAddExpansionDev. */
    method AddDev(dev: AmbappDev, allocOk: nat -> bool)
      modifies this`devs, this`allocs
      ensures State() == Add(old(State()), dev, allocOk)
    {
      if allocOk(allocs) {
        devs := devs + [dev];
      }
      allocs := allocs + 1;
    }

    /** scan_apb over the 16 APB slots of an APB base. */
    method ScanApb(mem: bv32 -> bv32, base: bv32, allocOk: nat -> bool)
      modifies this
      ensures State() == ApbScan(old(State()), PlugOf(mem), PlugOf(mem).apb(base), allocOk)
    {
      ghost var slots := ApbSlots(mem, base);
      PlugOfReads(mem, base);
      var i := 0;
      while i < APB_SLOTS
        invariant i <= APB_SLOTS
        invariant ApbScan(State(), PlugOf(mem), slots[i..], allocOk) == ApbScan(old(State()), PlugOf(mem), slots, allocOk)
      {
        var g := ApbSlot(mem, base, i);
        assert g == slots[i];
        assert slots[i..][1..] == slots[i + 1..];
        SlotApb(mem, g, allocOk);
        i := i + 1;
      }
    }

    /** The body of scan_apb's loop for one decoded slave. */
    method SlotApb(mem: bv32 -> bv32, g: Record, allocOk: nat -> bool)
      modifies this
      ensures State() == ApbStep(old(State()), PlugOf(mem), g, allocOk)
    {
      if g.vendor != 0 {
        if IsTimer(g) {
          PlugOfReads(mem, g.bars[0].addr);
          MaybeSetFreq(mem, g.bars[0].addr);
        }
        AddDev(ApbRecord(g), allocOk);
      }
    }

    /** scan_ahb over the 63 AHB slave slots of an I/O area, following at most `fuel` bridges. */
    method ScanAhb(mem: bv32 -> bv32, ioarea: bv32, allocOk: nat -> bool, fuel: nat)
      modifies this
      ensures State() == AhbScan(old(State()), PlugOf(mem), PlugOf(mem).ahb(ioarea), allocOk, fuel)
      decreases fuel, 1, 0
    {
      ghost var slots := AhbSlots(mem, ioarea);
      PlugOfReads(mem, ioarea);
      var i := 0;
      while i < AHB_SLOTS
        invariant i <= AHB_SLOTS
        invariant AhbScan(State(), PlugOf(mem), slots[i..], allocOk, fuel) == AhbScan(old(State()), PlugOf(mem), slots, allocOk, fuel)
      {
        var g := AhbSlot(mem, ioarea, i);
        assert g == slots[i];
        assert slots[i..][1..] == slots[i + 1..];
        SlotAhb(mem, g, allocOk, fuel);
        i := i + 1;
      }
    }

    /** The body of scan_ahb's loop for one decoded slave. */
    method SlotAhb(mem: bv32 -> bv32, g: Record, allocOk: nat -> bool, fuel: nat)
      modifies this
      ensures State() == AhbStep(old(State()), PlugOf(mem), g, allocOk, fuel)
      decreases fuel, 0, 1
    {
      if g.vendor != 0 {
        AddDev(AhbRecord(g), allocOk);
        Behind(mem, g, allocOk, fuel);
      }
    }

    /** The end of scan_ahb's loop body: follow a bridge, or scan the APB controller's area. */
    method Behind(mem: bv32 -> bv32, g: Record, allocOk: nat -> bool, fuel: nat)
      modifies this
      ensures State() == AhbBehind(old(State()), PlugOf(mem), g, allocOk, fuel)
      decreases fuel, 0, 0
    {
      if IsBridge(g) {
        if fuel > 0 {
          ScanAhb(mem, g.user[1], allocOk, Below(fuel));
        }
      } else if IsApbCtrl(g) {
        ScanApb(mem, g.bars[0].addr & g.bars[0].mask, allocOk);
      }
    }

    /** bus_init0: the scan starts from the I/O area at IOBASE. */
    method BusInit(mem: bv32 -> bv32, allocOk: nat -> bool, fuel: nat) returns (r: int)
      modifies this
      ensures r == 0 && State() == AhbScan(old(State()), PlugOf(mem), PlugOf(mem).ahb(IOBASE), allocOk, fuel)
    {
      ScanAhb(mem, IOBASE, allocOk, fuel);
      r := 0;
    }
  }
}
