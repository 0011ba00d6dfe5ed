/**
 * The unit table of a serial device (DevBase in the four impl.c files
 * under mod/serial): opening a unit by number (iOpen with findadev and
 * findunit), and closing it again (iClose).  The APBUART driver has one
 * unit per APBUART core the expansion driver found (edrv->units); the
 * other three drive a single UART (nunits, set to 1 at init).
 */
module SerialDev {
  import opened SerialHw
  import Serial
  import Devices
  import Lists

  /** The unit number test of iOpen on NS16550, PL011 and nRF as written: only an upper bound. */
  predicate InRangeAsWritten(nunits: int, unitnum: int)
  {
    !(nunits <= unitnum)
  }

  /** The test evidently intended: a unit number from 0 to nunits - 1. */
  predicate InRange(nunits: int, unitnum: int)
  {
    0 <= unitnum < nunits
  }

  /**
   * On a single-unit driver the test as written admits every unit number
   * up to 0, so unit -1 opens a second unit on the one UART beside unit 0;
   * the intended test admits unit 0 alone.
   */
  lemma {:induction false} NegativeUnitOpens(unitnum: int)
    ensures unitnum <= 0 ==> InRangeAsWritten(1, unitnum)
    ensures InRangeAsWritten(1, -1) && InRangeAsWritten(1, 0)
    ensures InRange(1, unitnum) <==> unitnum == 0
  {
  }

  /** The first two elements of a sequence are in it. */
  lemma {:induction false} FirstTwo<T>(s: seq<T>)
    requires |s| > 1
    ensures s[0] in s && s[1] in s
  {
  }

  /**
   * A DevBase: the UART kind it drives, nunits (NS16550, PL011, nRF) or
   * the number of APBUART cores on edrv->units, and unitlist.
   */
  class Device {
    const chip: Chip
    const nunits: int
    const nadevs: nat
    var units: seq<Serial.Unit>

    /**
     * unitlist holds units of this device's chip, each once, each with a
     * unit number the device has, and no two with the same number.
     */
    ghost predicate Valid()
      reads this
    {
      Lists.Distinct(units)
      && (forall i, j :: 0 <= i < j < |units| ==> units[i].num != units[j].num)
      && forall u :: u in units ==> u.chip == chip && Admits(u.num)
    }

    /** The unit numbers iOpen lets through its first test. */
    predicate Admits(unitnum: int)
    {
      if chip == Apbuart then 0 <= unitnum < nadevs else InRange(nunits, unitnum)
    }

    constructor (chip: Chip, nunits: int, nadevs: nat)
      ensures Valid() && units == []
      ensures this.chip == chip && this.nunits == nunits && this.nadevs == nadevs
    {
      this.chip := chip;
      this.nunits := nunits;
      this.nadevs := nadevs;
      units := [];
    }

    /**
     * findadev: walks edrv->units counting nodes and returns the one whose
     * position is unitnum; there is none for a negative unitnum or one past
     * the end of the list.
     */
    method FindAdev(unitnum: int) returns (found: bool, index: nat)
      ensures found <==> 0 <= unitnum < nadevs
      ensures found ==> index == unitnum
    {
      var i: nat := 0;
      while i < nadevs
        invariant i <= nadevs
        invariant !(0 <= unitnum < i)
      {
        if i == unitnum {
          return true, i;
        }
        i := i + 1;
      }
      return false, 0;
    }

    /** findunit: the first unit on unitlist with number unitnum, or null. */
    method FindUnit(unitnum: int) returns (u: Serial.Unit?)
      ensures u != null ==> u in units && u.num == unitnum
      ensures u == null <==> forall x :: x in units ==> x.num != unitnum
    {
      var k := 0;
      while k < |units|
        invariant k <= |units|
        invariant forall j :: 0 <= j < k ==> units[j].num != unitnum
      {
        if units[k].num == unitnum {
          return units[k];
        }
        k := k + 1;
      }
      return null;
    }

    /**
     * iOpen: a unit number the device does not have fails with
     * IOERR_INVALIDUNIT, one already open with IOERR_UNITBUSY, and a
     * failed allocation (allocOk false) with IOERR_OPENFAIL.  Otherwise a
     * new unit with empty lists and an empty ring goes to the end of
     * unitlist, and inithw writes the APBUART control word InitCtrl(ctrl)
     * built from the one it read.
     */
    method Open(unitnum: int, ctrl: bv32, allocOk: bool) returns (error: int, u: Serial.Unit?, newctrl: bv32)
      requires Valid()
      modifies this`units
      ensures Valid()
      ensures !Admits(unitnum) ==> error == Devices.IOERR_INVALIDUNIT
      ensures Admits(unitnum) && (exists x :: x in old(units) && x.num == unitnum) ==> error == Devices.IOERR_UNITBUSY
      ensures Admits(unitnum) && (forall x :: x in old(units) ==> x.num != unitnum) ==>
        error == (if allocOk then Devices.IOERR_OK else Devices.IOERR_OPENFAIL)
      ensures u == null <==> error != Devices.IOERR_OK
      ensures u == null ==> units == old(units)
      ensures u != null ==> fresh(u) && units == old(units) + [u] && u.num == unitnum
      ensures u != null ==> u.Valid() && u.rxq == [] && u.txq == [] && u.Contents() == [] && !u.txint
      ensures u != null && chip == Apbuart ==> newctrl == InitCtrl(ctrl) && u.fifo == FifoAvailable(ctrl)
    {
      u, newctrl := null, ctrl;
      var known := InRange(nunits, unitnum);
      if chip == Apbuart {
        var index;
        known, index := FindAdev(unitnum);
      }
      if !known {
        return Devices.IOERR_INVALIDUNIT, null, ctrl;
      }
      var busy := FindUnit(unitnum);
      if busy != null {
        return Devices.IOERR_UNITBUSY, null, ctrl;
      }
      if !allocOk {
        return Devices.IOERR_OPENFAIL, null, ctrl;
      }
      u := new Serial.Unit(chip, unitnum, ctrl);
      units := units + [u];
      error := Devices.IOERR_OK;
      if chip == Apbuart {
        newctrl := InitCtrl(ctrl);
      }
    }

    /**
     * iClose: finihw writes the APBUART control word FiniCtrl(ctrl), and
     * the unit leaves unitlist.
     */
    method Close(u: Serial.Unit, ctrl: bv32) returns (newctrl: bv32)
      requires Valid() && u in units
      modifies this`units
      ensures Valid() && u !in units
      ensures units == Lists.RemoveAt(old(units), Lists.IndexOf(old(units), u))
      ensures chip == Apbuart ==> newctrl == FiniCtrl(ctrl)
    {
      newctrl := if chip == Apbuart then FiniCtrl(ctrl) else ctrl;
      var i := Lists.IndexOf(units, u);
      Lists.RemoveAtDistinct(units, i);
      units := Lists.RemoveAt(units, i);
    }

    /**
     * With unit numbers kept apart and checked against nunits, a
     * single-unit driver has at most one open unit on its UART.
     */
    lemma {:induction false} SingleUart()
      requires Valid() && chip != Apbuart && nunits == 1
      ensures |units| <= 1
    {
      if |units| > 1 {
        FirstTwo(units);
      }
    }
  }
}
