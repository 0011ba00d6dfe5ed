/**
 * Libraries and devices (mod/exec/lib.c and the list half of
 * mod/exec/dev.c).
 *
 * A Library is made in one block of memory: its function table lies below
 * the base (negative offsets) and its data above it.  liblist and devlist
 * are LibLists; a device is a library on devlist.  The entries a library
 * or device supplies (Open, Close, Expunge, the init function) are not
 * part of this model: what they return is a parameter of the operation
 * that calls them.  The list mutexes (liblock, devlock) are not modelled:
 * each locked section is one atomic step.
 */
module Libraries {
  import opened Wrappers
  import opened Lists
  import Mem
  import Memory

  /** l->flags bit: expunge once the last opener has closed. */
  const LIBF_DELEXP := 1

  /** MEMF_CLEAR | MEMF_ANY */
  const ANY_CLEAR: bv32 := Mem.MEMF_CLEAR | Mem.MEMF_ANY

  /** sizeof a function pointer on the 32-bit targets. */
  const PTRSIZE := 4

  /** struct ResidentInfo: what a ROM module says about the library it makes. */
  datatype ResidentInfo = ResidentInfo(name: Option<string>, idstring: Option<string>, ntype: int, version: int)

  /**
   * struct ResidentAuto without its init function: the function table, one
   * entry per pointer, its size in bytes and the size of the data above
   * the base.
   */
  datatype ResidentAuto = ResidentAuto(optable: seq<int>, opsize: int, possize: int)

  /** Bit 0 of a flags word; for a negative short too, in two's complement. */
  predicate Bit0(f: int)
  {
    f % 2 == 1
  }

  /** f | 1: bit 0 set, every other bit kept. */
  function Set0(f: int): (r: int)
    ensures Bit0(r) && r / 2 == f / 2
  {
    if Bit0(f) then f else f + 1
  }

  /** f & ~1: bit 0 cleared, every other bit kept. */
  function Clear0(f: int): (r: int)
    ensures !Bit0(r) && r / 2 == f / 2
  {
    if Bit0(f) then f - 1 else f
  }

  /**
   * aligned_negsize: the table's size rounded up to a multiple of
   * ALIGNOF(MemAlign), so that the base is aligned.
   */
  function NegSize(opsize: int): (r: int)
    requires opsize >= 0
    ensures r % Mem.ALIGN == 0 && opsize <= r < opsize + Mem.ALIGN
  {
    (opsize + Mem.ALIGN - 1) / Mem.ALIGN * Mem.ALIGN
  }

  class Library {
    var name: Option<string>
    var ntype: int
    var pri: int
    var idstring: Option<string>
    var allocatedmemory: int
    var allocatedsize: int
    var version: int
    var opencount: int
    var flags: int
    /**
     * The function table below the base, as iMakeFunctions copies it: the
     * last entry ends at the base, so offset j < 0, in entries, is
     * ops[|ops| + j].
     */
    var ops: seq<int>

    /** A library in fresh MEMF_CLEAR memory: every field zero but the block and the table. */
    constructor (base: int, size: int, ops: seq<int>)
      ensures name == None && ntype == NT_UNKNOWN && pri == 0 && idstring == None
      ensures allocatedmemory == base && allocatedsize == size
      ensures version == 0 && opencount == 0 && flags == 0 && this.ops == ops
    {
      name := None;
      ntype := NT_UNKNOWN;
      pri := 0;
      idstring := None;
      allocatedmemory := base;
      allocatedsize := size;
      version := 0;
      opencount := 0;
      flags := 0;
      this.ops := ops;
    }
  }

  /** The names of the libraries, in list order. */
  function LibNames(ls: seq<Library>): (r: seq<Option<string>>)
    reads ls
    ensures |r| == |ls| && forall i :: 0 <= i < |ls| ==> r[i] == ls[i].name
  {
    if ls == [] then [] else [ls[0].name] + LibNames(ls[1..])
  }

  /** The priorities of the libraries, in list order. */
  function LibPris(ls: seq<Library>): (r: seq<int>)
    reads ls
    ensures |r| == |ls| && forall i :: 0 <= i < |ls| ==> r[i] == ls[i].pri
  {
    if ls == [] then [] else [ls[0].pri] + LibPris(ls[1..])
  }

  /** Library l matches an iOpenLibrary request. */
  predicate Matches(l: Library, name: string, version: int)
    reads l
  {
    l.name == Some(name) && l.version >= version
  }

  /**
   * The library iOpenLibrary settles on, looking from index k: the first,
   * in list order, with that name and at least that version.
   */
  function Openable(ls: seq<Library>, name: string, version: int, k: nat): (r: Option<nat>)
    reads ls
    requires k <= |ls|
    ensures r.Some? ==> k <= r.value < |ls| && Matches(ls[r.value], name, version)
    ensures r.Some? ==> forall j :: k <= j < r.value ==> !Matches(ls[j], name, version)
    ensures r.None? ==> forall j :: k <= j < |ls| ==> !Matches(ls[j], name, version)
    decreases |ls| - k
  {
    if k == |ls| then None
    else if Matches(ls[k], name, version) then Some(k)
    else Openable(ls, name, version, k + 1)
  }

  /** Skipping libraries of other names does not change the library found. */
  lemma {:induction false} OpenableSkip(ls: seq<Library>, name: string, version: int, k: nat, i: nat)
    requires k <= i <= |ls|
    requires forall j :: k <= j < i ==> ls[j].name != Some(name)
    ensures Openable(ls, name, version, k) == Openable(ls, name, version, i)
    decreases i - k
  {
    if k < i {
      OpenableSkip(ls, name, version, k + 1, i);
    }
  }

  /** The memory the library was made in may be given to iFreeMem. */
  predicate Expungeable(rs: seq<Memory.Region>, l: Library)
    reads l
  {
    0 <= l.allocatedsize < Mem.WORD && Memory.Returnable(rs, l.allocatedmemory, Mem.NUnits(l.allocatedsize))
  }

  /** The memory after expungelib: the library's block is freed iff Expunge returned a segment. */
  function Expunged(rs: seq<Memory.Region>, l: Library, seg: bool): seq<Memory.Region>
    reads l
    requires Expungeable(rs, l)
  {
    if seg then Memory.Released(rs, l.allocatedmemory, Mem.NUnits(l.allocatedsize)) else rs
  }

  /**
   * expungelib: the library's Expunge entry runs (seg is whether it
   * returned a segment), and then, only with a segment, the block the
   * library was made in goes back to iFreeMem.
   */
  method ExpungeLib(mem: Memory.MemoryList, l: Library, seg: bool) returns (freed: bool)
    requires mem.Valid() && Expungeable(mem.regions, l)
    modifies mem`regions, mem.headers
    ensures mem.Valid() && mem.headers == old(mem.headers)
    ensures freed == seg && mem.regions == Expunged(old(mem.regions), l, seg)
  {
    var mem0 := l.allocatedmemory;
    var size := l.allocatedsize;
    if seg {
      var _ := mem.FreeMem(mem0, size);
    }
    return seg;
  }

  /**
   * iMakeLibrary: one MEMF_CLEAR block holds the table, rounded up to the
   * alignment, and the data; the table is copied below the base and the
   * resident information filled in.  initok is whether the module's init
   * function accepted the library; when it did not, the block is freed
   * again.  The result is NULL, with every free count as it was, or the
   * new library.
   */
  method MakeLibrary(mem: Memory.MemoryList, rinfo: Option<ResidentInfo>, rauto: ResidentAuto, initok: bool)
    returns (l: Library?)
    requires mem.Valid()
    requires rauto.opsize == PTRSIZE * |rauto.optable| && rauto.possize >= 0
    requires NegSize(rauto.opsize) + rauto.possize <= Memory.INT_MAX
    modifies mem`regions, mem.headers
    ensures mem.Valid() && mem.headers == old(mem.headers)
    ensures l == null <==>
      !initok || Memory.Choose(old(mem.regions), Mem.NUnits(NegSize(rauto.opsize) + rauto.possize), ANY_CLEAR, 0).None?
    ensures l == null ==> Memory.Returned(old(mem.regions), mem.regions, [])
    ensures l != null ==>
      && fresh(l) && l.allocatedsize == NegSize(rauto.opsize) + rauto.possize
      && l.allocatedmemory != Memory.NULL && Expungeable(mem.regions, l)
      && Memory.Returned(old(mem.regions), Expunged(mem.regions, l, true), [])
      && Laid(l, rinfo, rauto.optable)
  {
    var negsize := NegSize(rauto.opsize);
    var size := negsize + rauto.possize;
    var base := AllocCleared(mem, size);
    if base == Memory.NULL {
      return null;
    }
    l := InitLibrary(mem, base, size, rinfo, rauto.optable, initok, old(mem.regions));
  }

  /**
   * The rest of iMakeLibrary once the block is allocated: the library is
   * laid out in it and handed to the module's init function; when that
   * fails, the block goes back and the regions are those of before the
   * allocation, rs0.
   */
  method InitLibrary(mem: Memory.MemoryList, base: int, size: Mem.size_t, rinfo: Option<ResidentInfo>, ops: seq<int>,
                     initok: bool, ghost rs0: seq<Memory.Region>)
    returns (l: Library?)
    requires mem.Valid() && Memory.Lent(rs0, mem.regions, base, Mem.NUnits(size))
    modifies mem`regions, mem.headers
    ensures mem.Valid() && mem.headers == old(mem.headers)
    ensures !initok <==> l == null
    ensures l == null ==> Memory.Returned(rs0, mem.regions, [])
    ensures l != null ==>
      && fresh(l) && l.allocatedmemory == base && l.allocatedsize == size && mem.regions == old(mem.regions)
      && Expungeable(mem.regions, l) && Memory.Returned(rs0, Expunged(mem.regions, l, true), [])
      && Laid(l, rinfo, ops)
  {
    l := NewLibrary(base, size, ops, rinfo);
    if !initok {
      var _ := mem.FreeMem(base, size);
      return null;
    }
  }

  /**
   * A library as iMakeLibrary leaves it: the table copied below the base,
   * nobody has it open, no flag is set, and the resident information, if
   * any, is copied in (otherwise the cleared block leaves those fields
   * zero).
   */
  predicate Laid(l: Library, rinfo: Option<ResidentInfo>, ops: seq<int>)
    reads l
  {
    && l.ops == ops && l.opencount == 0 && l.flags == 0
    && (rinfo.Some? ==>
          && l.name == rinfo.value.name && l.idstring == rinfo.value.idstring
          && l.ntype == rinfo.value.ntype && l.version == rinfo.value.version)
    && (rinfo.None? ==> l.name == None && l.idstring == None && l.ntype == NT_UNKNOWN && l.version == 0)
  }

  /**
   * The library iMakeLibrary lays out in the cleared block: its block and
   * table recorded, and the resident information, when there is one,
   * copied in.
   */
  method NewLibrary(base: int, size: int, ops: seq<int>, rinfo: Option<ResidentInfo>) returns (l: Library)
    ensures fresh(l) && l.allocatedmemory == base && l.allocatedsize == size && Laid(l, rinfo, ops)
  {
    l := new Library(base, size, ops);
    if rinfo.Some? {
      l.name := rinfo.value.name;
      l.idstring := rinfo.value.idstring;
      l.ntype := rinfo.value.ntype;
      l.version := rinfo.value.version;
    }
  }

  /**
   * lAllocMem(size, MEMF_CLEAR | MEMF_ANY) as the constructors of exec
   * call it: NULL with nothing changed, or a block that the constructor
   * can give straight back to iFreeMem, which then restores every free
   * count.
   */
  method AllocCleared(mem: Memory.MemoryList, size: Mem.size_t) returns (base: int)
    requires mem.Valid()
    modifies mem`regions, mem.headers
    ensures mem.Valid() && mem.headers == old(mem.headers)
    ensures var i := Memory.Choose(old(mem.regions), Mem.NUnits(size), ANY_CLEAR, 0);
      && (base == Memory.NULL <==> i.None?)
      && (i.None? ==> mem.regions == old(mem.regions))
      && (i.Some? ==>
            && base == Memory.AllocBlock(old(mem.regions), i.value, Mem.NUnits(size))
            && mem.regions == Memory.Alloc(old(mem.regions), i.value, Mem.NUnits(size)))
    ensures base == Memory.NULL ==> Memory.Returned(old(mem.regions), mem.regions, [])
    ensures base != Memory.NULL ==> Memory.Lent(old(mem.regions), mem.regions, base, Mem.NUnits(size))
  {
    ghost var rs := mem.regions;
    var cleared;
    base, cleared := mem.AllocMem(size, ANY_CLEAR);
    if base != Memory.NULL {
      Memory.GiveBack(rs, Memory.Choose(rs, Mem.NUnits(size), ANY_CLEAR, 0).value, Mem.NUnits(size));
    }
  }

  /**
   * The size iMakeLibrary records, as written: allocated_size is stored in
   * the short allocatedsize, and expungelib hands that short back to
   * iFreeMem, where it becomes a size_t.
   */
  function ExpungeSizeAsWritten(size: int): (r: Mem.size_t)
  {
    Mem.Short(size) % Mem.WORD
  }

  /**
   * A library whose table and data add up to more than 32767 bytes is
   * freed with the wrong size: with opsize 8 and possize 32767 the block
   * of 32775 bytes goes back as 2^32 - 32761 bytes.
   */
  lemma {:induction false} ExpungeSizeWraps()
    ensures NegSize(8) + 32767 == 32775
    ensures ExpungeSizeAsWritten(32775) == 0x1_0000_0000 - 32761
    ensures Mem.NUnits(ExpungeSizeAsWritten(32775)) != Mem.NUnits(32775)
  {
  }

  /**
   * iSetFunction: the entry at negoffset is replaced by newfunc; when the
   * caller asks for it (oldfunc not NULL), the entry it had is returned.
   * The result is always 0.
   */
  method SetFunction(library: Library, negoffset: int, newfunc: int, wantold: bool)
    returns (r: int, oldfunc: Option<int>)
    requires -|library.ops| <= negoffset < 0
    modifies library`ops
    ensures r == 0 && |library.ops| == |old(library.ops)|
    ensures library.ops[|library.ops| + negoffset] == newfunc
    ensures forall j :: 0 <= j < |library.ops| && j != |library.ops| + negoffset ==> library.ops[j] == old(library.ops)[j]
    ensures oldfunc == if wantold then Some(old(library.ops)[|library.ops| + negoffset]) else None
  {
    oldfunc := None;
    if wantold {
      oldfunc := Some(library.ops[|library.ops| + negoffset]);
    }
    library.ops := library.ops[|library.ops| + negoffset := newfunc];
    r := 0;
  }

  /** Patching an entry and then putting back the entry returned restores the table. */
  method PatchAndRestore(library: Library, negoffset: int, newfunc: int)
    requires -|library.ops| <= negoffset < 0
    modifies library`ops
    ensures library.ops == old(library.ops)
  {
    var _, prev := SetFunction(library, negoffset, newfunc, true);
    var _, _ := SetFunction(library, negoffset, prev.value, false);
    assert library.ops == old(library.ops);
  }

  /**
   * liblist or devlist: the libraries, head first.  Every library on it is
   * distinct.
   */
  class LibList {
    var libs: seq<Library>

    predicate Valid()
      reads this
    {
      Distinct(libs)
    }

    constructor ()
      ensures Valid() && libs == []
    {
      libs := [];
    }

    /** Names the string compare can read: no NUL inside a name. */
    predicate NamesOk()
      reads this, libs
    {
      forall i :: 0 <= i < |libs| && libs[i].name.Some? ==> NUL !in libs[i].name.value
    }

    /**
     * enqnode (iAddLibrary, iAddDevice): the library is enqueued by
     * priority, after those of equal priority.
     */
    method Enqueue(l: Library)
      requires Valid() && l !in libs
      modifies this`libs
      ensures Valid()
      ensures libs == InsertAt(old(libs), EnqueuePos(LibPris(old(libs)), l.pri), l)
    {
      var pos := EnqueuePos(LibPris(libs), l.pri);
      InsertAtDistinct(libs, pos, l);
      libs := InsertAt(libs, pos, l);
    }

    /**
     * iFindName on the list from index k on (from the head for k = 0, from
     * a library's successor otherwise): the first library there with the
     * name.
     */
    method FindFrom(name: string, k: nat) returns (i: Option<nat>)
      requires k <= |libs| && NUL !in name && NamesOk()
      ensures i.Some? ==> k <= i.value < |libs| && libs[i.value].name == Some(name)
      ensures i.Some? ==> forall j :: k <= j < i.value ==> libs[j].name != Some(name)
      ensures i.None? ==> forall j :: k <= j < |libs| ==> libs[j].name != Some(name)
    {
      var j := k;
      while j < |libs|
        invariant k <= j <= |libs|
        invariant forall m :: k <= m < j ==> libs[m].name != Some(name)
      {
        if libs[j].name.Some? {
          var c := StrCmp(name, libs[j].name.value);
          if c == 0 {
            return Some(j);
          }
        }
        j := j + 1;
      }
      return None;
    }

    /**
     * The search loop of iOpenLibrary: iFindName from the head, then again
     * from each library found whose version is too low.
     */
    method Lookup(name: string, version: int) returns (i: Option<nat>)
      requires NUL !in name && NamesOk()
      ensures i == Openable(libs, name, version, 0)
    {
      i := FindFrom(name, 0);
      if i.None? {
        OpenableSkip(libs, name, version, 0, |libs|);
      } else {
        OpenableSkip(libs, name, version, 0, i.value);
      }
      while i.Some? && libs[i.value].version < version
        invariant i.Some? ==> i.value < |libs| && libs[i.value].name == Some(name)
        invariant Openable(libs, name, version, 0) == if i.None? then None else Openable(libs, name, version, i.value)
        decreases if i.None? then 0 else |libs| - i.value
      {
        var k := i.value + 1;
        i := FindFrom(name, k);
        if i.None? {
          OpenableSkip(libs, name, version, k, |libs|);
        } else {
          OpenableSkip(libs, name, version, k, i.value);
        }
      }
    }

    /**
     * The common tail of iCloseLibrary, iCloseDevice and a failed open:
     * one opener less; when that was the last one and a delayed expunge
     * is pending, the library leaves the list and is expunged.
     */
    method DropOpen(mem: Memory.MemoryList, l: Library, seg: bool) returns (expunged: bool)
      requires Valid() && l in libs && mem.Valid() && Expungeable(mem.regions, l)
      modifies this`libs, l`opencount, mem`regions, mem.headers
      ensures Valid() && mem.Valid() && mem.headers == old(mem.headers)
      ensures l.opencount == old(l.opencount) - 1
      ensures expunged <==> l.opencount == 0 && Bit0(l.flags)
      ensures expunged ==>
        && libs == RemoveAt(old(libs), IndexOf(old(libs), l)) && l !in libs
        && mem.regions == Expunged(old(mem.regions), l, seg)
      ensures !expunged ==> libs == old(libs) && mem.regions == old(mem.regions)
    {
      l.opencount := l.opencount - 1;
      expunged := l.opencount == 0 && Bit0(l.flags);
      if expunged {
        var i := IndexOf(libs, l);
        RemoveAtDistinct(libs, i);
        libs := RemoveAt(libs, i);
        var _ := ExpungeLib(mem, l, seg);
      }
    }

    /**
     * remlib (iRemLibrary, iRemDevice): a library still open gets a
     * delayed expunge; otherwise it leaves the list and is expunged.
     */
    method RemLib(mem: Memory.MemoryList, l: Library, seg: bool) returns (expunged: bool)
      requires Valid() && l in libs && mem.Valid() && Expungeable(mem.regions, l)
      modifies this`libs, l`flags, mem`regions, mem.headers
      ensures Valid() && mem.Valid() && mem.headers == old(mem.headers)
      ensures expunged <==> old(l.opencount) == 0
      ensures !expunged ==> l.flags == Set0(old(l.flags)) && libs == old(libs) && mem.regions == old(mem.regions)
      ensures expunged ==>
        && l.flags == old(l.flags) && libs == RemoveAt(old(libs), IndexOf(old(libs), l)) && l !in libs
        && mem.regions == Expunged(old(mem.regions), l, seg)
    {
      if l.opencount != 0 {
        l.flags := Set0(l.flags);
        return false;
      }
      var i := IndexOf(libs, l);
      RemoveAtDistinct(libs, i);
      libs := RemoveAt(libs, i);
      var _ := ExpungeLib(mem, l, seg);
      return true;
    }

    /**
     * iOpenLibrary: the first library with the name and at least the
     * version gets one more opener and its Open entry is called (openok is
     * whether Open succeeded).  A successful open clears a delayed
     * expunge and returns the library; a failed one is undone as
     * DropOpen states and returns NULL, as does a library not found.
     */
    method OpenLibrary(mem: Memory.MemoryList, name: string, version: int, openok: bool, seg: bool)
      returns (r: Library?)
      requires Valid() && NUL !in name && NamesOk() && mem.Valid()
      requires forall l :: l in libs ==> Expungeable(mem.regions, l)
      modifies this`libs, libs`opencount, libs`flags, mem`regions, mem.headers
      ensures Valid() && mem.Valid() && mem.headers == old(mem.headers)
      ensures old(Openable(libs, name, version, 0)).None? ==>
        r == null && libs == old(libs) && mem.regions == old(mem.regions)
      ensures old(Openable(libs, name, version, 0)).Some? ==>
        var l := old(libs)[old(Openable(libs, name, version, 0)).value];
        && (openok ==>
              && r == l && l.opencount == old(l.opencount) + 1 && l.flags == Clear0(old(l.flags))
              && libs == old(libs) && mem.regions == old(mem.regions))
        && (!openok ==>
              && r == null && l.opencount == old(l.opencount) && l.flags == old(l.flags)
              && (if l.opencount == 0 && Bit0(l.flags)
                  then libs == RemoveAt(old(libs), IndexOf(old(libs), l)) && mem.regions == Expunged(old(mem.regions), l, seg)
                  else libs == old(libs) && mem.regions == old(mem.regions)))
    {
      var i := Lookup(name, version);
      if i.None? {
        return null;
      }
      var l := libs[i.value];
      var _ := Attach(mem, l, openok, seg);
      r := if openok then l else null;
    }

    /**
     * The locked sections around a library's or device's Open entry: one
     * more opener first; then, if Open succeeded (openok), the delayed
     * expunge is cleared, and otherwise the open is undone as DropOpen
     * states.
     */
    method Attach(mem: Memory.MemoryList, l: Library, openok: bool, seg: bool) returns (expunged: bool)
      requires Valid() && l in libs && mem.Valid() && Expungeable(mem.regions, l)
      modifies this`libs, l`opencount, l`flags, mem`regions, mem.headers
      ensures Valid() && mem.Valid() && mem.headers == old(mem.headers)
      ensures openok ==>
        && !expunged && l.opencount == old(l.opencount) + 1 && l.flags == Clear0(old(l.flags))
        && libs == old(libs) && mem.regions == old(mem.regions)
      ensures !openok ==>
        && l.opencount == old(l.opencount) && l.flags == old(l.flags)
        && (expunged <==> l.opencount == 0 && Bit0(l.flags))
      ensures expunged ==>
        libs == RemoveAt(old(libs), IndexOf(old(libs), l)) && mem.regions == Expunged(old(mem.regions), l, seg)
      ensures !expunged ==> libs == old(libs) && mem.regions == old(mem.regions)
    {
      l.opencount := l.opencount + 1;
      if openok {
        l.flags := Clear0(l.flags);
        return false;
      }
      expunged := DropOpen(mem, l, seg);
    }

    /** iCloseLibrary: the library's Close entry runs, then DropOpen. */
    method CloseLibrary(mem: Memory.MemoryList, l: Library, seg: bool) returns (expunged: bool)
      requires Valid() && l in libs && mem.Valid() && Expungeable(mem.regions, l)
      modifies this`libs, l`opencount, mem`regions, mem.headers
      ensures Valid() && mem.Valid() && mem.headers == old(mem.headers)
      ensures l.opencount == old(l.opencount) - 1
      ensures expunged <==> l.opencount == 0 && Bit0(l.flags)
      ensures expunged ==>
        libs == RemoveAt(old(libs), IndexOf(old(libs), l)) && mem.regions == Expunged(old(mem.regions), l, seg)
      ensures !expunged ==> libs == old(libs) && mem.regions == old(mem.regions)
    {
      expunged := DropOpen(mem, l, seg);
    }
  }

  /**
   * A library opened and then closed, with no delayed expunge pending,
   * stays on the list with its opener count back where it was.
   */
  method OpenClose(ll: LibList, mem: Memory.MemoryList, name: string, version: int, seg: bool)
    returns (l: Library?)
    requires ll.Valid() && NUL !in name && ll.NamesOk() && mem.Valid()
    requires forall x :: x in ll.libs ==> Expungeable(mem.regions, x)
    modifies ll`libs, ll.libs`opencount, ll.libs`flags, mem`regions, mem.headers
    ensures l != null <==> old(Openable(ll.libs, name, version, 0)).Some?
    ensures l != null ==> l in old(ll.libs)
    ensures l != null ==>
      && l.opencount == old(l.opencount) && l.flags == Clear0(old(l.flags))
      && ll.libs == old(ll.libs) && mem.regions == old(mem.regions)
  {
    ghost var ls := ll.libs;
    l := ll.OpenLibrary(mem, name, version, true, seg);
    if l != null {
      assert l in ls && ll.libs == ls;
      var _ := ll.CloseLibrary(mem, l, seg);
    }
  }
}
