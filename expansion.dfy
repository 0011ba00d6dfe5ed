/**
 * The expansion framework's bookkeeping (mod/expansion/init.c): the driver
 * list, the binding of a new device to the first driver that takes it, and
 * the staged initialisation of the device tree.
 *
 * A device (`Dev`) may spawn a bus (`Bus`) whose children are devices.  Both
 * go through EXPANSION_INIT_LEVELS init levels: `initlevel` is the next
 * level to run, and `ret` latches the first failure.  The op tables of
 * drivers and buses are foreign code; the model keeps which entries are
 * present (`DriverOp`, `BusOp`), and what a call returns is a parameter:
 * `busInit` and `devInit` give the code init[level] returns, `allocOk`
 * whether lAllocMem finds memory for a device's priv block, and `spawn` the
 * bus a device's init creates, if any.  `priv` records whether dev->priv
 * points to a block.  Lists are sequences, as in the rest of the model.
 *
 * A device tree is finite: the ghost `height` of each device and bus falls
 * going down the tree (`Tree`), which is what makes the recursive walks of
 * upbus and updev end.
 */
module Expansion {
  import opened Wrappers
  import Lists

  const EXPANSION_OK := 0
  const EXPANSION_NOT_ENOUGH_MEMORY := 1
  const EXPANSION_UNSUPPORTED_HW := 2
  const EXPANSION_IO_ERROR := 3
  const EXPANSION_NOT_IMPLEMENTED := 4

  const NT_EXPANSION_DRIVER := Lists.NT_CUSTOM
  const NT_EXPANSION_DEVICE := Lists.NT_CUSTOM + 1
  const NT_EXPANSION_BUS := Lists.NT_CUSTOM + 2

  const EXPANSION_INIT_LEVELS: nat := 3

  /** The entries present in a driver's op table: init[level] and ismatch. */
  datatype DriverOp = DriverOp(init: seq<bool>, ismatch: bool)

  /** The entries present in a bus's op table: init[level] and the services for drivers. */
  datatype BusOp = BusOp(init: seq<bool>, getFreq: bool, addInt: bool, remInt: bool)

  /** Whether an init table has an entry for level. */
  predicate Has(init: seq<bool>, level: nat)
  {
    level < |init| && init[level]
  }

  function Max(a: nat, b: nat): nat
  {
    if a < b then b else a
  }

  class Driver {
    var ntype: int
    const bustype: int
    /** Allocated for each dev->priv. */
    const privSize: nat
    const op: Option<DriverOp>

    constructor (bustype: int, privSize: nat, op: Option<DriverOp>)
      ensures this.bustype == bustype && this.privSize == privSize && this.op == op
    {
      this.bustype := bustype;
      this.privSize := privSize;
      this.op := op;
    }

    /** The driver has init[level]. */
    predicate HasInit(level: nat)
    {
      op.Some? && Has(op.value.init, level)
    }
  }

  class Bus {
    const bustype: int
    const op: Option<BusOp>
    var children: seq<Dev>
    var initlevel: nat
    var ret: int
    ghost const height: nat

    constructor (bustype: int, op: Option<BusOp>, height: nat)
      ensures this.bustype == bustype && this.op == op && this.height == height
      ensures children == [] && initlevel == 0 && ret == EXPANSION_OK
    {
      this.bustype := bustype;
      this.op := op;
      this.height := height;
      children := [];
      initlevel := 0;
      ret := EXPANSION_OK;
    }

    /** The bus has init[level]. */
    predicate HasInit(level: nat)
    {
      op.Some? && Has(op.value.init, level)
    }

    /**
     * The loop of upbus: levels from initlevel below maxlevel, each calling
     * init[level] when it is present; the first failure stops the loop and
     * stays in ret.  A bus that has failed before is left alone.
     */
    method Up(maxlevel: nat, busInit: (Bus, nat) -> int)
      modifies this`initlevel, this`ret
      ensures old(ret) != EXPANSION_OK ==> initlevel == old(initlevel) && ret == old(ret)
      ensures old(ret) == EXPANSION_OK ==> Stage(initlevel, ret) == Raise(this, old(initlevel), maxlevel, busInit)
    {
      if ret != EXPANSION_OK {
        return;
      }
      var level := initlevel;
      while level < maxlevel
        invariant ret == EXPANSION_OK && initlevel == level
        invariant Raise(this, level, maxlevel, busInit) == Raise(this, old(initlevel), maxlevel, busInit)
        decreases maxlevel - level
      {
        if HasInit(level) {
          ret := busInit(this, level);
          if ret != EXPANSION_OK {
            return;
          }
        }
        initlevel := level + 1;
        level := level + 1;
      }
    }
  }

  class Dev {
    var ntype: int
    var driver: Driver?
    var parent: Bus?
    /** Whether priv points to a block of driver->priv_size bytes. */
    var priv: bool
    /** The bus this device spawns, if any. */
    var bus: Bus?
    var initlevel: nat
    var ret: int
    ghost const height: nat

    constructor (height: nat)
      ensures this.height == height && driver == null && parent == null && !priv && bus == null
      ensures initlevel == 0 && ret == EXPANSION_OK
    {
      this.height := height;
      driver := null;
      parent := null;
      priv := false;
      bus := null;
      initlevel := 0;
      ret := EXPANSION_OK;
    }

    /**
     * The loop of updev: with a driver, priv is allocated once (a failure
     * stores EXPANSION_NOT_ENOUGH_MEMORY) and init[level] is called when
     * present; the first failure stops the loop and stays in ret.  `added`
     * is 1 when an init call that succeeded gave the device a bus it did
     * not have (an init that fails may leave a bus too), and
     * `allocs` counts the lAllocMem calls.
     */
    method Up(maxlevel: nat, allocOk: Dev -> bool, devInit: (Dev, nat) -> int, spawn: (Dev, nat) -> Bus?)
      returns (added: nat, allocs: nat)
      modifies this`initlevel, this`ret, this`priv, this`bus
      ensures old(ret) != EXPANSION_OK ==> Snap() == old(Snap()) && added == 0 && allocs == 0
      ensures old(ret) == EXPANSION_OK ==> Snap() == DevRaise(this, driver, old(Snap()), maxlevel, allocOk, devInit, spawn)
      ensures added <= 1 && (added == 1 ==> old(bus) == null && bus != null)
      ensures ret == EXPANSION_OK ==> added == if old(bus) == null && bus != null then 1 else 0
      ensures allocs <= 1 && (old(priv) ==> allocs == 0)
    {
      added, allocs := 0, 0;
      if ret != EXPANSION_OK {
        return;
      }
      var level := initlevel;
      while level < maxlevel
        invariant ret == EXPANSION_OK && initlevel == level
        invariant DevRaise(this, driver, Snap(), maxlevel, allocOk, devInit, spawn)
          == DevRaise(this, driver, old(Snap()), maxlevel, allocOk, devInit, spawn)
        invariant old(bus) != null ==> bus == old(bus)
        invariant added == if old(bus) == null && bus != null then 1 else 0
        invariant allocs <= 1
        invariant old(priv) ==> priv && allocs == 0
        invariant allocs == 1 ==> priv
        decreases maxlevel - level
      {
        ghost var s := Snap();
        if driver != null {
          if !priv && driver.privSize != 0 {
            allocs := allocs + 1;
            if !allocOk(this) {
              ret := EXPANSION_NOT_ENOUGH_MEMORY;
              assert Snap() == DevRaise(this, driver, s, maxlevel, allocOk, devInit, spawn);
              return;
            }
            priv := true;
          }
          if driver.HasInit(level) {
            var had := bus;
            ret := devInit(this, level);
            if bus == null {
              bus := spawn(this, level);
            }
            if ret != EXPANSION_OK {
              assert Snap() == DevRaise(this, driver, s, maxlevel, allocOk, devInit, spawn);
              return;
            }
            if had == null && bus != null {
              added := added + 1;
            }
          }
        }
        initlevel := level + 1;
        level := level + 1;
      }
    }

    /** The fields updev changes, as a value. */
    function Snap(): DevStage
      reads this
    {
      DevStage(initlevel, ret, priv, bus)
    }
  }

  /** The level and return code of a bus after its init calls. */
  datatype Stage = Stage(level: nat, ret: int)

  /** The level, return code, priv block and bus of a device after its init calls. */
  datatype DevStage = DevStage(level: nat, ret: int, priv: bool, bus: Bus?)

  /**
   * The init calls of a healthy bus from level `from` below `to`: the level
   * reached, and the code of the first init that failed, if any.
   */
  function Raise(b: Bus, from: nat, to: nat, busInit: (Bus, nat) -> int): Stage
    decreases (to as int) - (from as int)
  {
    if from >= to then Stage(from, EXPANSION_OK)
    else if b.HasInit(from) && busInit(b, from) != EXPANSION_OK then Stage(from, busInit(b, from))
    else Raise(b, from + 1, to, busInit)
  }

  /**
   * The init calls of a healthy device from level s.level below `to`, with
   * the priv allocation before the first call of a driver with priv_size.
   */
  function DevRaise(d: Dev, driver: Driver?, s: DevStage, to: nat, allocOk: Dev -> bool,
                    devInit: (Dev, nat) -> int, spawn: (Dev, nat) -> Bus?): DevStage
    decreases (to as int) - (s.level as int)
  {
    if s.level >= to then s.(ret := EXPANSION_OK)
    else if driver == null then DevRaise(d, driver, s.(level := s.level + 1), to, allocOk, devInit, spawn)
    else if !s.priv && driver.privSize != 0 && !allocOk(d) then s.(ret := EXPANSION_NOT_ENOUGH_MEMORY)
    else
      var t := s.(priv := s.priv || driver.privSize != 0);
      if !driver.HasInit(s.level) then DevRaise(d, driver, t.(level := s.level + 1), to, allocOk, devInit, spawn)
      else
        var b := if s.bus == null then spawn(d, s.level) else s.bus;
        if devInit(d, s.level) != EXPANSION_OK then t.(ret := devInit(d, s.level), bus := b)
        else DevRaise(d, driver, t.(level := s.level + 1, bus := b), to, allocOk, devInit, spawn)
  }

  /**
   * A healthy bus either reaches maxlevel (or stays where it is, if it is
   * there already) with EXPANSION_OK, or stops at the first level whose
   * init is present and fails, with that init's code in ret.
   */
  lemma {:induction false} RaiseLatches(b: Bus, from: nat, to: nat, busInit: (Bus, nat) -> int)
    ensures var r := Raise(b, from, to, busInit);
      (&& from <= r.level
       && (r.ret == EXPANSION_OK ==> r.level == Max(from, to))
       && (r.ret != EXPANSION_OK ==> r.level < to && b.HasInit(r.level) && busInit(b, r.level) == r.ret)
       && (forall l :: from <= l < r.level ==> !b.HasInit(l) || busInit(b, l) == EXPANSION_OK))
    decreases (to as int) - (from as int)
  {
    if from < to && !(b.HasInit(from) && busInit(b, from) != EXPANSION_OK) {
      RaiseLatches(b, from + 1, to, busInit);
    }
  }

  /**
   * Raising to m1 and then to m2 is raising to m2 at once: the levels of
   * iUpdateExpansion's passes add up to one run over all levels.
   */
  lemma {:induction false} RaiseInStages(b: Bus, from: nat, m1: nat, m2: nat, busInit: (Bus, nat) -> int)
    requires m1 <= m2
    ensures var r1 := Raise(b, from, m1, busInit);
      Raise(b, from, m2, busInit) == if r1.ret != EXPANSION_OK then r1 else Raise(b, r1.level, m2, busInit)
    decreases (m1 as int) - (from as int)
  {
    if from < m1 && !(b.HasInit(from) && busInit(b, from) != EXPANSION_OK) {
      RaiseInStages(b, from + 1, m1, m2, busInit);
    }
  }

  /**
   * A healthy device either reaches maxlevel with EXPANSION_OK or stops at
   * the level that failed; priv, once allocated, stays, and it is only
   * allocated for a driver with priv_size; a bus, once there, stays.
   */
  lemma {:induction false} DevRaiseLatches(d: Dev, driver: Driver?, s: DevStage, to: nat, allocOk: Dev -> bool,
                                           devInit: (Dev, nat) -> int, spawn: (Dev, nat) -> Bus?)
    ensures var r := DevRaise(d, driver, s, to, allocOk, devInit, spawn);
      (&& s.level <= r.level
       && (r.ret == EXPANSION_OK ==> r.level == Max(s.level, to))
       && (r.ret != EXPANSION_OK ==>
             && r.level < to && driver != null
             && ((r.ret == EXPANSION_NOT_ENOUGH_MEMORY && !allocOk(d) && !r.priv) ||
                 (driver.HasInit(r.level) && devInit(d, r.level) == r.ret)))
       && (s.priv ==> r.priv)
       && (r.priv ==> s.priv || (driver != null && driver.privSize != 0))
       && (s.bus != null ==> r.bus == s.bus)
       && (r.bus == s.bus || exists l :: s.level <= l <= r.level && r.bus == spawn(d, l)))
    decreases (to as int) - (s.level as int)
  {
    if s.level < to {
      if driver == null {
        DevRaiseLatches(d, driver, s.(level := s.level + 1), to, allocOk, devInit, spawn);
      } else if !(!s.priv && driver.privSize != 0 && !allocOk(d)) {
        var t := s.(priv := s.priv || driver.privSize != 0);
        if !driver.HasInit(s.level) {
          DevRaiseLatches(d, driver, t.(level := s.level + 1), to, allocOk, devInit, spawn);
        } else if devInit(d, s.level) == EXPANSION_OK {
          var b := if s.bus == null then spawn(d, s.level) else s.bus;
          DevRaiseLatches(d, driver, t.(level := s.level + 1, bus := b), to, allocOk, devInit, spawn);
        }
      }
    }
  }

  // The device tree

  /**
   * Every bus's children are devices of the tree, every device's bus is a
   * bus of the tree, and heights fall going down.
   */
  ghost predicate Tree(buses: set<Bus>, devs: set<Dev>)
    reads buses, devs
  {
    && (forall b, c :: b in buses && c in b.children ==> c in devs && c.height < b.height)
    && (forall d :: d in devs && d.bus != null ==> d.bus in buses && d.bus.height < d.height)
  }

  /** A bus a device's init creates belongs to the tree, below the device. */
  ghost predicate Spawns(spawn: (Dev, nat) -> Bus?, buses: set<Bus>, devs: set<Dev>)
  {
    forall d, l :: d in devs && spawn(d, l) != null ==> spawn(d, l) in buses && spawn(d, l).height < d.height
  }

  /**
   * What a walk up to maxlevel may do to a bus: a failed bus, or one at
   * maxlevel already, is untouched; otherwise initlevel only grows, and not
   * past maxlevel.
   */
  twostate predicate BusProgress(b: Bus, maxlevel: nat)
    reads b
  {
    && (old(b.ret) != EXPANSION_OK || old(b.initlevel) >= maxlevel ==> b.ret == old(b.ret) && b.initlevel == old(b.initlevel))
    && old(b.initlevel) <= b.initlevel && (b.initlevel == old(b.initlevel) || b.initlevel <= maxlevel)
  }

  /**
   * The same for a device; a priv block or a bus, once there, stays, and
   * the driver binding and the parent are not touched.
   */
  twostate predicate DevProgress(d: Dev, maxlevel: nat)
    reads d
  {
    && d.driver == old(d.driver) && d.parent == old(d.parent) && d.ntype == old(d.ntype)
    && (old(d.ret) != EXPANSION_OK || old(d.initlevel) >= maxlevel ==>
          d.ret == old(d.ret) && d.initlevel == old(d.initlevel) && d.priv == old(d.priv) && d.bus == old(d.bus))
    && old(d.initlevel) <= d.initlevel && (d.initlevel == old(d.initlevel) || d.initlevel <= maxlevel)
    && (old(d.priv) ==> d.priv)
    && (old(d.bus) != null ==> d.bus == old(d.bus))
  }

  /**
   * upbus: a healthy bus is raised to maxlevel, and then the buses of its
   * children are walked the same way.  A bus that fails stops there.
   */
  method UpBus(bus: Bus, maxlevel: nat, busInit: (Bus, nat) -> int, ghost buses: set<Bus>, ghost devs: set<Dev>)
    requires bus in buses && Tree(buses, devs)
    modifies buses
    ensures Tree(buses, devs)
    ensures forall b :: b in buses ==> b.children == old(b.children) && BusProgress(b, maxlevel)
    ensures old(bus.ret) == EXPANSION_OK ==> Stage(bus.initlevel, bus.ret) == Raise(bus, old(bus.initlevel), maxlevel, busInit)
    decreases bus.height
  {
    bus.Up(maxlevel, busInit);
    RaiseLatches(bus, old(bus.initlevel), maxlevel, busInit);
    if bus.ret != EXPANSION_OK {
      return;
    }
    var cs := bus.children;
    var i := 0;
    while i < |cs|
      invariant i <= |cs|
      invariant forall c :: c in cs ==> c in devs && c.height < bus.height
      invariant Tree(buses, devs)
      invariant forall b :: b in buses ==> b.children == old(b.children) && BusProgress(b, maxlevel)
      invariant Stage(bus.initlevel, bus.ret) == Raise(bus, old(bus.initlevel), maxlevel, busInit)
    {
      var child := cs[i];
      if child.bus != null {
        UpBus(child.bus, maxlevel, busInit, buses, devs);
      }
      i := i + 1;
    }
  }

  /**
   * updev: a healthy device is raised to maxlevel, and then the children of
   * its bus are walked the same way.  A device that fails stops there.
   * `added` counts the devices that got a bus from an init that succeeded.
   */
  method UpDev(dev: Dev, maxlevel: nat, allocOk: Dev -> bool, devInit: (Dev, nat) -> int, spawn: (Dev, nat) -> Bus?,
               ghost buses: set<Bus>, ghost devs: set<Dev>) returns (added: nat)
    requires dev in devs && Tree(buses, devs) && Spawns(spawn, buses, devs)
    modifies devs
    ensures Tree(buses, devs)
    ensures forall d :: d in devs ==> DevProgress(d, maxlevel)
    ensures old(dev.ret) == EXPANSION_OK ==> dev.Snap() == DevRaise(dev, dev.driver, old(dev.Snap()), maxlevel, allocOk, devInit, spawn)
    ensures added > 0 ==> exists d :: d in devs && old(d.bus) == null && d.bus != null
    ensures old(dev.bus) == null && dev.bus != null && dev.ret == EXPANSION_OK ==> added > 0
    decreases dev.height, 1
  {
    var allocs;
    added, allocs := dev.Up(maxlevel, allocOk, devInit, spawn);
    DevRaiseLatches(dev, dev.driver, old(dev.Snap()), maxlevel, allocOk, devInit, spawn);
    if dev.ret != EXPANSION_OK || dev.bus == null {
      return;
    }
    ghost var s := dev.Snap();
    var n := UpChildren(dev.bus.children, dev.height, maxlevel, allocOk, devInit, spawn, buses, devs);
    assert dev.Snap() == s;
    added := added + n;
  }

  /** The loop of updev over the children of a device's bus, all of them below height h. */
  method UpChildren(cs: seq<Dev>, ghost h: nat, maxlevel: nat, allocOk: Dev -> bool, devInit: (Dev, nat) -> int,
                    spawn: (Dev, nat) -> Bus?, ghost buses: set<Bus>, ghost devs: set<Dev>) returns (added: nat)
    requires forall c :: c in cs ==> c in devs && c.height < h
    requires Tree(buses, devs) && Spawns(spawn, buses, devs)
    modifies devs
    ensures Tree(buses, devs)
    ensures forall d :: d in devs ==> DevProgress(d, maxlevel)
    ensures added > 0 ==> exists d :: d in devs && old(d.bus) == null && d.bus != null
    decreases h, 0
  {
    added := 0;
    var i := 0;
    while i < |cs|
      invariant i <= |cs|
      invariant Tree(buses, devs)
      invariant forall d :: d in devs ==> DevProgress(d, maxlevel)
      invariant added > 0 ==> exists d :: d in devs && old(d.bus) == null && d.bus != null
    {
      var n := UpDev(cs[i], maxlevel, allocOk, devInit, spawn, buses, devs);
      added := added + n;
      i := i + 1;
    }
  }

  /** expansion.library's base: the driver list and the root device. */
  class ExpansionBase {
    var drivers: seq<Driver>
    const root: Dev

    constructor (root: Dev)
      ensures this.root == root && drivers == []
    {
      this.root := root;
      drivers := [];
    }

    /** iAddExpansionDriver: the driver is tagged and appended to the driver list. */
    method AddExpansionDriver(driver: Driver) returns (r: int)
      modifies this`drivers, driver`ntype
      ensures r == EXPANSION_OK && driver.ntype == NT_EXPANSION_DRIVER
      ensures drivers == old(drivers) + [driver]
    {
      driver.ntype := NT_EXPANSION_DRIVER;
      drivers := drivers + [driver];
      r := EXPANSION_OK;
    }

    /** iSetExpansionRoot: the root device has no parent and the given driver. */
    method SetExpansionRoot(driver: Driver?) returns (r: int)
      modifies root`ntype, root`parent, root`driver
      ensures r == EXPANSION_OK && root.ntype == NT_EXPANSION_DEVICE
      ensures root.parent == null && root.driver == driver
    {
      root.ntype := NT_EXPANSION_DEVICE;
      root.parent := null;
      root.driver := driver;
      r := EXPANSION_OK;
    }

    /**
     * iAddExpansionDev: the device gets its parent and the first driver
     * that takes it, and is appended to the parent's children.
     */
    method AddExpansionDev(dev: Dev, parent: Bus, busMatch: (Driver, Dev) -> bool, drvMatch: (Driver, Dev) -> bool)
      returns (r: int)
      modifies dev`ntype, dev`parent, dev`driver, parent`children
      ensures r == EXPANSION_OK && dev.ntype == NT_EXPANSION_DEVICE && dev.parent == parent
      ensures dev.driver == if FirstMatch(drivers, parent.bustype, dev, busMatch, drvMatch) == null
        then old(dev.driver) else FirstMatch(drivers, parent.bustype, dev, busMatch, drvMatch)
      ensures parent.children == old(parent.children) + [dev]
    {
      dev.ntype := NT_EXPANSION_DEVICE;
      dev.parent := parent;
      var driver := FindDriver(drivers, parent.bustype, dev, busMatch, drvMatch);
      if driver != null {
        dev.driver := driver;
      }
      parent.children := parent.children + [dev];
      r := EXPANSION_OK;
    }

    /**
     * iUpdateExpansion: the tree is walked for levels 1 up to
     * EXPANSION_INIT_LEVELS.  At the end the root device has run every level
     * or failed; if it has not failed, its bus has too.
     */
    method UpdateExpansion(busInit: (Bus, nat) -> int, allocOk: Dev -> bool, devInit: (Dev, nat) -> int,
                           spawn: (Dev, nat) -> Bus?, ghost buses: set<Bus>, ghost devs: set<Dev>) returns (r: int)
      requires root in devs && Tree(buses, devs) && Spawns(spawn, buses, devs)
      modifies buses, devs
      ensures r == EXPANSION_OK
      ensures forall b :: b in buses ==> BusProgress(b, EXPANSION_INIT_LEVELS)
      ensures forall d :: d in devs ==> DevProgress(d, EXPANSION_INIT_LEVELS)
      ensures root.ret != EXPANSION_OK || root.initlevel >= EXPANSION_INIT_LEVELS
      ensures root.ret == EXPANSION_OK && root.bus != null ==>
        root.bus.ret != EXPANSION_OK || root.bus.initlevel >= EXPANSION_INIT_LEVELS
    {
      var i := 1;
      while i <= EXPANSION_INIT_LEVELS
        invariant 1 <= i <= EXPANSION_INIT_LEVELS + 1 && Tree(buses, devs)
        invariant forall b :: b in buses ==> BusProgress(b, EXPANSION_INIT_LEVELS)
        invariant forall d :: d in devs ==> DevProgress(d, EXPANSION_INIT_LEVELS)
        invariant root.ret != EXPANSION_OK || root.initlevel >= i - 1
        invariant root.ret == EXPANSION_OK && root.bus != null ==> root.bus.ret != EXPANSION_OK || root.bus.initlevel >= i - 1
      {
        Settle(i, busInit, allocOk, devInit, spawn, buses, devs);
        i := i + 1;
      }
      r := EXPANSION_OK;
    }

    /**
     * Level i of iUpdateExpansion: passes are made while the last one gave
     * some device a new bus.  There are only so many devices, so this ends.
     */
    method Settle(i: nat, busInit: (Bus, nat) -> int, allocOk: Dev -> bool, devInit: (Dev, nat) -> int,
                  spawn: (Dev, nat) -> Bus?, ghost buses: set<Bus>, ghost devs: set<Dev>)
      requires 1 <= i <= EXPANSION_INIT_LEVELS
      requires root in devs && Tree(buses, devs) && Spawns(spawn, buses, devs)
      modifies buses, devs
      ensures Tree(buses, devs)
      ensures forall b :: b in buses ==> BusProgress(b, i)
      ensures forall d :: d in devs ==> DevProgress(d, i)
      ensures root.ret != EXPANSION_OK || root.initlevel >= i
      ensures root.ret == EXPANSION_OK && root.bus != null ==> root.bus.ret != EXPANSION_OK || root.bus.initlevel >= i
    {
      var again := true;
      while again
        invariant Tree(buses, devs)
        invariant forall b :: b in buses ==> BusProgress(b, i)
        invariant forall d :: d in devs ==> DevProgress(d, i)
        invariant !again ==> root.ret != EXPANSION_OK || root.initlevel >= i
        invariant !again ==> root.ret == EXPANSION_OK && root.bus != null ==>
          root.bus.ret != EXPANSION_OK || root.bus.initlevel >= i
        decreases |Bare(devs)|, again
      {
        ghost var bare := Bare(devs);
        var added := Pass(i, busInit, allocOk, devInit, spawn, buses, devs);
        again := added > 0;
        if again {
          FewerBare(Bare(devs), bare);
        } else {
          SubsetNoLarger(Bare(devs), bare);
        }
      }
    }

    /**
     * One pass of iUpdateExpansion at level i: upbus on the root's bus, then
     * updev on the root.  A pass that gives a device a bus leaves fewer
     * devices without one, and one that gives none leaves the root's bus
     * raised to i.
     */
    method Pass(i: nat, busInit: (Bus, nat) -> int, allocOk: Dev -> bool, devInit: (Dev, nat) -> int,
                spawn: (Dev, nat) -> Bus?, ghost buses: set<Bus>, ghost devs: set<Dev>) returns (added: nat)
      requires 1 <= i <= EXPANSION_INIT_LEVELS
      requires root in devs && Tree(buses, devs) && Spawns(spawn, buses, devs)
      modifies buses, devs
      ensures Tree(buses, devs)
      ensures forall b :: b in buses ==> BusProgress(b, i)
      ensures forall d :: d in devs ==> DevProgress(d, i)
      ensures root.ret != EXPANSION_OK || root.initlevel >= i
      ensures Bare(devs) <= old(Bare(devs)) && (added > 0 ==> Bare(devs) != old(Bare(devs)))
      ensures added == 0 && root.ret == EXPANSION_OK && root.bus != null ==>
        root.bus.ret != EXPANSION_OK || root.bus.initlevel >= i
    {
      if root.bus != null {
        UpBus(root.bus, i, busInit, buses, devs);
        RaiseLatches(root.bus, old(root.bus.initlevel), i, busInit);
      }
      added := UpDev(root, i, allocOk, devInit, spawn, buses, devs);
      DevRaiseLatches(root, root.driver, old(root.Snap()), i, allocOk, devInit, spawn);
      if added > 0 {
        ghost var d :| d in devs && old(d.bus) == null && d.bus != null;
        assert d in old(Bare(devs)) && d !in Bare(devs);
      }
    }
  }

  /** The devices of the tree without a bus. */
  function Bare(devs: set<Dev>): set<Dev>
    reads devs
  {
    set d | d in devs && d.bus == null
  }

  /** A proper subset is smaller. */
  lemma {:induction false} FewerBare(a: set<Dev>, b: set<Dev>)
    requires a <= b && a != b
    ensures |a| < |b|
  {
    var x :| x in b && x !in a;
    assert a <= b - {x};
    SubsetNoLarger(a, b - {x});
  }

  /** A subset is no larger. */
  lemma {:induction false} SubsetNoLarger(a: set<Dev>, b: set<Dev>)
    requires a <= b
    ensures |a| <= |b|
    decreases |b|
  {
    if a != {} {
      var x :| x in a;
      SubsetNoLarger(a - {x}, b - {x});
    }
  }

  /** Whether d matches a driver as iAddExpansionDev tests it. */
  predicate Matches(driver: Driver, bustype: int, dev: Dev, busMatch: (Driver, Dev) -> bool, drvMatch: (Driver, Dev) -> bool)
  {
    && driver.bustype == bustype
    && busMatch(driver, dev)
    && (driver.op.Some? && driver.op.value.ismatch ==> drvMatch(driver, dev))
  }

  /** The first driver on the list that matches, or null. */
  function FirstMatch(drivers: seq<Driver>, bustype: int, dev: Dev, busMatch: (Driver, Dev) -> bool,
                      drvMatch: (Driver, Dev) -> bool): Driver?
  {
    if drivers == [] then null
    else if Matches(drivers[0], bustype, dev, busMatch, drvMatch) then drivers[0]
    else FirstMatch(drivers[1..], bustype, dev, busMatch, drvMatch)
  }

  /**
   * FirstMatch is the first matching driver in list order, and null exactly
   * when no driver matches.
   */
  lemma {:induction false} FirstMatchIsFirst(drivers: seq<Driver>, bustype: int, dev: Dev,
                                             busMatch: (Driver, Dev) -> bool, drvMatch: (Driver, Dev) -> bool)
    ensures var m := FirstMatch(drivers, bustype, dev, busMatch, drvMatch);
      (&& (m == null <==> forall j :: 0 <= j < |drivers| ==> !Matches(drivers[j], bustype, dev, busMatch, drvMatch))
       && (m != null ==>
             exists i :: (&& 0 <= i < |drivers| && drivers[i] == m && Matches(m, bustype, dev, busMatch, drvMatch)
                          && forall j :: 0 <= j < i ==> !Matches(drivers[j], bustype, dev, busMatch, drvMatch))))
  {
    if drivers != [] && !Matches(drivers[0], bustype, dev, busMatch, drvMatch) {
      FirstMatchIsFirst(drivers[1..], bustype, dev, busMatch, drvMatch);
      var m := FirstMatch(drivers, bustype, dev, busMatch, drvMatch);
      if m != null {
        var i :| 0 <= i < |drivers| - 1 && drivers[1..][i] == m && Matches(m, bustype, dev, busMatch, drvMatch)
          && forall j :: 0 <= j < i ==> !Matches(drivers[1..][j], bustype, dev, busMatch, drvMatch);
        assert drivers[i + 1] == m;
        assert forall j :: 0 <= j < i + 1 ==> !Matches(drivers[j], bustype, dev, busMatch, drvMatch) by {
          forall j | 0 <= j < i + 1 ensures !Matches(drivers[j], bustype, dev, busMatch, drvMatch) {
            if j > 0 {
              assert drivers[j] == drivers[1..][j - 1];
            }
          }
        }
      } else {
        assert forall j :: 0 <= j < |drivers| ==> !Matches(drivers[j], bustype, dev, busMatch, drvMatch) by {
          forall j | 0 <= j < |drivers| ensures !Matches(drivers[j], bustype, dev, busMatch, drvMatch) {
            if j > 0 {
              assert drivers[j] == drivers[1..][j - 1];
            }
          }
        }
      }
    }
  }

  /** The driver loop of iAddExpansionDev: the first driver in list order that matches, or null. */
  method FindDriver(drivers: seq<Driver>, bustype: int, dev: Dev, busMatch: (Driver, Dev) -> bool,
                    drvMatch: (Driver, Dev) -> bool) returns (driver: Driver?)
    ensures driver == FirstMatch(drivers, bustype, dev, busMatch, drvMatch)
  {
    var i := 0;
    while i < |drivers|
      invariant i <= |drivers|
      invariant FirstMatch(drivers[i..], bustype, dev, busMatch, drvMatch) == FirstMatch(drivers, bustype, dev, busMatch, drvMatch)
    {
      var hit := false;
      if drivers[i].bustype == bustype {
        if busMatch(drivers[i], dev) {
          hit := true;
          if drivers[i].op.Some? && drivers[i].op.value.ismatch {
            hit := drvMatch(drivers[i], dev);
          }
        }
      }
      if hit {
        return drivers[i];
      }
      assert drivers[i..][1..] == drivers[i + 1..];
      i := i + 1;
    }
    return null;
  }

  // The services a bus gives its devices

  /** getop: the op table of the device's parent bus, when it has both. */
  function GetOp(dev: Dev): Option<BusOp>
    reads dev
  {
    if dev.parent != null && dev.parent.op.Some? then dev.parent.op else None
  }

  /**
   * iGetDevFreq: the parent bus's get_freq answers (`answer` is what it
   * returns); without a parent, an op table or get_freq it is
   * EXPANSION_NOT_IMPLEMENTED.
   */
  function GetDevFreq(dev: Dev, answer: int): (r: int)
    reads dev
    ensures dev.parent == null || dev.parent.op.None? || !dev.parent.op.value.getFreq ==> r == EXPANSION_NOT_IMPLEMENTED
    ensures dev.parent != null && dev.parent.op.Some? && dev.parent.op.value.getFreq ==> r == answer
  {
    var op := GetOp(dev);
    if op.Some? && op.value.getFreq then answer else EXPANSION_NOT_IMPLEMENTED
  }

  /** iAddDevInt: the parent bus's add_int answers, or EXPANSION_NOT_IMPLEMENTED. */
  function AddDevInt(dev: Dev, answer: int): (r: int)
    reads dev
    ensures dev.parent == null || dev.parent.op.None? || !dev.parent.op.value.addInt ==> r == EXPANSION_NOT_IMPLEMENTED
    ensures dev.parent != null && dev.parent.op.Some? && dev.parent.op.value.addInt ==> r == answer
  {
    var op := GetOp(dev);
    if op.Some? && op.value.addInt then answer else EXPANSION_NOT_IMPLEMENTED
  }

  /** iRemDevInt: the parent bus's rem_int answers, or EXPANSION_NOT_IMPLEMENTED. */
  function RemDevInt(dev: Dev, answer: int): (r: int)
    reads dev
    ensures dev.parent == null || dev.parent.op.None? || !dev.parent.op.value.remInt ==> r == EXPANSION_NOT_IMPLEMENTED
    ensures dev.parent != null && dev.parent.op.Some? && dev.parent.op.value.remInt ==> r == answer
  {
    var op := GetOp(dev);
    if op.Some? && op.value.remInt then answer else EXPANSION_NOT_IMPLEMENTED
  }
}
