/**
 * Resident modules (mod/exec/resident.c, mod/exec/pub/exec/resident.h).
 *
 * At boot collectres walks the ROM between two addresses looking for
 * Resident records: a record is recognised by its match word and by a
 * match tag that points back at the record itself.  Each accepted record
 * is put on reslist under its name, keeping for every name the record of
 * highest version, and the list is ordered by priority.  InitCode later
 * initialises the residents of one init level in list order, and
 * InitResident starts one module, either through its own init function or
 * by making a library or device out of it.
 *
 * The ROM is a map from addresses to the records stored there; an address
 * that is not in the map holds no record.  A ResidentNode is a Lists.Node
 * together with the address of its record, kept in the map ResList.res.
 */
module Residents {
  import opened Wrappers
  import opened Lists
  import opened Libraries
  import Mem
  import Memory

  const RTC_MATCHWORD := 0xDEAD
  const RTF_AUTOINIT: bv8 := 0x80
  const RTF_LEVEL: bv8 := 0x7F

  /** ALIGNOF(Resident) on the 32-bit targets: the alignment of a long and of a pointer. */
  const RESIDENT_ALIGN := 4

  const INT_MIN := -0x8000_0000

  /**
   * struct Resident.  Both members of the init union are kept; the
   * RTF_AUTOINIT flag says which one is read.  The init functions are
   * foreign code and are represented by their outcomes where they are called.
   */
  datatype Resident = Resident(
    matchword: int,
    matchtag: int,
    endskip: int,
    info: ResidentInfo,
    pri: int,
    flags: bv8,
    possize: int,
    iauto: ResidentAuto)

  type Rom = map<int, Resident>

  /** The record at p carries the match word and a match tag that points at itself. */
  predicate Tagged(rom: Rom, p: int) {
    p in rom && rom[p].matchword == RTC_MATCHWORD && rom[p].matchtag == p
  }

  /**
   * What the scan relies on in every record it accepts: the record ends
   * after it starts, and it has a name that can be compared.
   */
  ghost predicate Proper(rom: Rom) {
    forall p :: Tagged(rom, p) ==>
      rom[p].endskip > p && rom[p].info.name.Some? && NUL !in rom[p].info.name.value
  }

  /** A record the scan accepts, with a name (a C string) to file it under. */
  predicate Named(rom: Rom, p: int) {
    Tagged(rom, p) && rom[p].info.name.Some? && NUL !in rom[p].info.name.value
  }

  /** Every entry stands for an address of the ROM. */
  predicate Filed(rom: Rom, es: seq<Entry>) {
    forall i :: 0 <= i < |es| ==> es[i].res in rom
  }

  // ---------------------------------------------------------------------
  // The scan
  // ---------------------------------------------------------------------

  /**
   * The records collectres accepts from p up to end, in scan order: an
   * untagged position is stepped over by ALIGNOF(Resident), an accepted
   * record is skipped as a whole, to its endskip.
   */
  function Scanned(rom: Rom, p: int, end: int): (r: seq<int>)
    requires Proper(rom)
    ensures forall a :: a in r ==> Tagged(rom, a) && p <= a < end
    decreases end - p
  {
    if p >= end then []
    else if !Tagged(rom, p) then Scanned(rom, p + RESIDENT_ALIGN, end)
    else [p] + Scanned(rom, rom[p].endskip, end)
  }

  /**
   * The scan resumes at the endskip of each accepted record: the next
   * accepted record lies at or beyond it, so the accepted records are in
   * increasing order and none lies inside another.
   */
  /** Each record of r lies before its own endskip, and the next record lies at or beyond it. */
  predicate Resumes(rom: Rom, r: seq<int>) {
    forall i :: 0 <= i < |r| - 1 ==> r[i] in rom && r[i] < rom[r[i]].endskip <= r[i + 1]
  }

  lemma {:induction false} ScannedResumes(rom: Rom, p: int, end: int)
    requires Proper(rom)
    ensures Resumes(rom, Scanned(rom, p, end))
    decreases end - p
  {
    if p < end {
      if !Tagged(rom, p) {
        ScannedResumes(rom, p + RESIDENT_ALIGN, end);
        assert Scanned(rom, p, end) == Scanned(rom, p + RESIDENT_ALIGN, end);
      } else {
        ScannedResumes(rom, rom[p].endskip, end);
        var rest := Scanned(rom, rom[p].endskip, end);
        assert rest != [] ==> rest[0] in rest;
        ResumesCons(rom, p, rest);
      }
    }
  }

  lemma {:induction false} ResumesCons(rom: Rom, p: int, rest: seq<int>)
    requires p in rom && p < rom[p].endskip && Resumes(rom, rest)
    requires rest != [] ==> rom[p].endskip <= rest[0]
    ensures Resumes(rom, [p] + rest)
  {
    var r := [p] + rest;
    forall i | 0 <= i < |r| - 1 ensures r[i] in rom && r[i] < rom[r[i]].endskip <= r[i + 1] {
      if i > 0 {
        assert r[i] == rest[i - 1] && r[i + 1] == rest[i];
      }
    }
  }

  /**
   * The state of the collectres loop at q: reslist is orderly, and merging
   * what the scan accepts from q on yields goal.
   */
  ghost predicate Pending(rom: Rom, es: seq<Entry>, q: int, end: int, goal: seq<Entry>) {
    Proper(rom) && Orderly(rom, es) && Collected(rom, es, Scanned(rom, q, end)) == goal
  }

  /** An untagged position is stepped over. */
  lemma {:induction false} ScanSkips(rom: Rom, es: seq<Entry>, q: int, end: int, goal: seq<Entry>)
    requires Pending(rom, es, q, end, goal) && q < end && !Tagged(rom, q)
    ensures Pending(rom, es, q + RESIDENT_ALIGN, end, goal)
  {
    assert Scanned(rom, q, end) == Scanned(rom, q + RESIDENT_ALIGN, end);
  }

  /** Once the scan passes the end nothing is left to merge: the entries are the goal. */
  lemma {:induction false} ScanDone(rom: Rom, es: seq<Entry>, q: int, end: int, goal: seq<Entry>)
    requires Pending(rom, es, q, end, goal) && q >= end
    ensures es == goal
  {
    assert Scanned(rom, q, end) == [];
  }

  /** A record sitting at a scan position within the range is accepted first. */
  lemma {:induction false} ScannedTakesTagged(rom: Rom, p: int, end: int)
    requires Proper(rom) && p < end
    ensures Tagged(rom, p) <==> Scanned(rom, p, end) != [] && Scanned(rom, p, end)[0] == p
  {
    if !Tagged(rom, p) {
      var r := Scanned(rom, p, end);
      assert r != [] ==> r[0] in r && r[0] >= p + RESIDENT_ALIGN;
    }
  }

  // ---------------------------------------------------------------------
  // reslist as a sequence of entries
  // ---------------------------------------------------------------------

  /** A node of reslist as the scan reads it: name, priority and the address of its record. */
  datatype Entry = Entry(name: Option<string>, pri: int, res: int)

  function EntryNames(es: seq<Entry>): (r: seq<Option<string>>)
    ensures |r| == |es| && forall i :: 0 <= i < |es| ==> r[i] == es[i].name
  {
    seq(|es|, i requires 0 <= i < |es| => es[i].name)
  }

  function EntryPris(es: seq<Entry>): (r: seq<int>)
    ensures |r| == |es| && forall i :: 0 <= i < |es| ==> r[i] == es[i].pri
  {
    seq(|es|, i requires 0 <= i < |es| => es[i].pri)
  }

  /** The node collectres makes for the record at a. */
  function EntryFor(rom: Rom, a: int): Entry
    requires a in rom
  {
    Entry(rom[a].info.name, rom[a].pri, a)
  }

  /**
   * What reslist keeps true: every node stands for a record of the ROM and
   * carries its name and priority; no two nodes share a name; the highest
   * priority comes first.
   */
  predicate Orderly(rom: Rom, es: seq<Entry>) {
    && (forall i :: 0 <= i < |es| ==> Tagged(rom, es[i].res) && es[i] == EntryFor(rom, es[i].res))
    && Distinct(EntryNames(es))
    && NonIncreasing(EntryPris(es))
  }

  /** iEnqueue of entry e: in front of the first entry of lower priority. */
  function Put(es: seq<Entry>, e: Entry): seq<Entry> {
    InsertAt(es, EnqueuePos(EntryPris(es), e.pri), e)
  }

  /**
   * One accepted record at address a: ignored when the node of that name
   * stands for a record of higher version; otherwise that node, if there is
   * one, is taken off, and a node for a is enqueued by its priority.
   */
  function Merge(rom: Rom, es: seq<Entry>, a: int): seq<Entry>
    requires Filed(rom, es) && Named(rom, a)
  {
    match FindIndex(EntryNames(es), rom[a].info.name.value)
    case None => Put(es, EntryFor(rom, a))
    case Some(i) =>
      if rom[a].info.version < rom[es[i].res].info.version then es
      else Put(RemoveAt(es, i), EntryFor(rom, a))
  }

  /** reslist after the records at addrs have been accepted in turn. */
  ghost function Collected(rom: Rom, es: seq<Entry>, addrs: seq<int>): (r: seq<Entry>)
    requires Proper(rom) && Orderly(rom, es) && forall a :: a in addrs ==> Tagged(rom, a)
    ensures Orderly(rom, r)
    decreases |addrs|
  {
    if addrs == [] then es
    else
      MergeOrderly(rom, es, addrs[0]);
      Collected(rom, Merge(rom, es, addrs[0]), addrs[1..])
  }

  /** A node of es stands for a record named like the one at a, of strictly higher version. */
  ghost predicate Outranked(rom: Rom, es: seq<Entry>, a: int)
    requires a in rom
  {
    exists e :: e in es && e.name == rom[a].info.name && e.res in rom && rom[a].info.version < rom[e.res].info.version
  }

  /** A node of es stands for a record named like the one at a, of at least its version. */
  ghost predicate Kept(rom: Rom, es: seq<Entry>, a: int)
    requires a in rom
  {
    exists e :: e in es && e.name == rom[a].info.name && e.res in rom && rom[e.res].info.version >= rom[a].info.version
  }

  lemma {:induction false} EntryNamesRemoveAt(es: seq<Entry>, i: nat)
    requires i < |es|
    ensures EntryNames(RemoveAt(es, i)) == RemoveAt(EntryNames(es), i)
  {
    assert |EntryNames(RemoveAt(es, i))| == |RemoveAt(EntryNames(es), i)|;
  }

  lemma {:induction false} EntryPrisRemoveAt(es: seq<Entry>, i: nat)
    requires i < |es|
    ensures EntryPris(RemoveAt(es, i)) == RemoveAt(EntryPris(es), i)
  {
    assert |EntryPris(RemoveAt(es, i))| == |RemoveAt(EntryPris(es), i)|;
  }

  lemma {:induction false} EntryNamesInsertAt(es: seq<Entry>, k: nat, e: Entry)
    requires k <= |es|
    ensures EntryNames(InsertAt(es, k, e)) == InsertAt(EntryNames(es), k, e.name)
  {
    var r := InsertAt(es, k, e);
    assert |EntryNames(r)| == |InsertAt(EntryNames(es), k, e.name)|;
    forall j | 0 <= j < |r| ensures EntryNames(r)[j] == InsertAt(EntryNames(es), k, e.name)[j] {
      InsertAtIndex(es, k, e, j);
      InsertAtIndex(EntryNames(es), k, e.name, j);
    }
  }

  lemma {:induction false} EntryPrisInsertAt(es: seq<Entry>, k: nat, e: Entry)
    requires k <= |es|
    ensures EntryPris(InsertAt(es, k, e)) == InsertAt(EntryPris(es), k, e.pri)
  {
    var r := InsertAt(es, k, e);
    assert |EntryPris(r)| == |InsertAt(EntryPris(es), k, e.pri)|;
    forall j | 0 <= j < |r| ensures EntryPris(r)[j] == InsertAt(EntryPris(es), k, e.pri)[j] {
      InsertAtIndex(es, k, e, j);
      InsertAtIndex(EntryPris(es), k, e.pri, j);
    }
  }

  /** Enqueueing a node whose name is not on the list keeps the list orderly. */
  lemma {:induction false} PutOrderly(rom: Rom, es: seq<Entry>, a: int)
    requires Orderly(rom, es) && Tagged(rom, a) && rom[a].info.name !in EntryNames(es)
    ensures Orderly(rom, Put(es, EntryFor(rom, a)))
  {
    var e := EntryFor(rom, a);
    var k := EnqueuePos(EntryPris(es), e.pri);
    var r := Put(es, e);
    forall j | 0 <= j < |r| ensures Tagged(rom, r[j].res) && r[j] == EntryFor(rom, r[j].res) {
      InsertAtIndex(es, k, e, j);
    }
    EntryNamesInsertAt(es, k, e);
    InsertAtDistinct(EntryNames(es), k, e.name);
    EntryPrisInsertAt(es, k, e);
    EnqueueKeepsOrder(EntryPris(es), e.pri);
  }

  /** Taking a node off keeps the list orderly, and its name is then absent. */
  lemma {:induction false} RemoveOrderly(rom: Rom, es: seq<Entry>, i: nat)
    requires Orderly(rom, es) && i < |es|
    ensures Orderly(rom, RemoveAt(es, i)) && es[i].name !in EntryNames(RemoveAt(es, i))
  {
    var r := RemoveAt(es, i);
    forall j | 0 <= j < |r| ensures Tagged(rom, r[j].res) && r[j] == EntryFor(rom, r[j].res) {
      RemoveAtIndex(es, i, j);
    }
    EntryNamesRemoveAt(es, i);
    RemoveAtDistinct(EntryNames(es), i);
    EntryPrisRemoveAt(es, i);
    RemoveAtNonIncreasing(EntryPris(es), i);
  }

  /** Merging an accepted record keeps reslist orderly. */
  lemma {:induction false} MergeOrderly(rom: Rom, es: seq<Entry>, a: int)
    requires Orderly(rom, es) && Named(rom, a)
    ensures Orderly(rom, Merge(rom, es, a))
  {
    match FindIndex(EntryNames(es), rom[a].info.name.value)
    case None =>
      PutOrderly(rom, es, a);
    case Some(i) =>
      if rom[a].info.version >= rom[es[i].res].info.version {
        RemoveOrderly(rom, es, i);
        PutOrderly(rom, RemoveAt(es, i), a);
      }
  }

  /**
   * What merging the record at a does: when a node of that name stands for
   * a higher version, nothing; otherwise the list afterwards holds the nodes
   * of other names and a node for a, and nothing else.  An equal version
   * therefore replaces the node.
   */
  lemma {:induction false} MergeContents(rom: Rom, es: seq<Entry>, a: int)
    requires Filed(rom, es) && Distinct(EntryNames(es)) && Named(rom, a)
    ensures Outranked(rom, es, a) ==> Merge(rom, es, a) == es
    ensures !Outranked(rom, es, a) ==>
      forall e :: e in Merge(rom, es, a) <==> (e in es && e.name != rom[a].info.name) || e == EntryFor(rom, a)
  {
    var name := rom[a].info.name;
    match FindIndex(EntryNames(es), name.value)
    case None =>
      AbsentName(es, name);
      PutMembers(es, EntryFor(rom, a));
    case Some(i) =>
      OnlyNamed(es, i);
      assert es[i] in es;
      if rom[a].info.version >= rom[es[i].res].info.version {
        RemoveNamed(es, i);
        PutMembers(RemoveAt(es, i), EntryFor(rom, a));
      }
  }

  /** A name FindIndex does not find is the name of no entry. */
  lemma {:induction false} AbsentName(es: seq<Entry>, n: Option<string>)
    requires n.Some? && FindIndex(EntryNames(es), n.value).None?
    ensures forall e :: e in es ==> e.name != n
  {
    forall e | e in es ensures e.name != n {
      var j :| 0 <= j < |es| && es[j] == e;
      assert EntryNames(es)[j] == e.name;
    }
  }

  /** With names distinct, the entry at i is the only one of its name. */
  lemma {:induction false} OnlyNamed(es: seq<Entry>, i: nat)
    requires i < |es| && Distinct(EntryNames(es))
    ensures forall e :: e in es && e.name == es[i].name ==> e == es[i]
  {
    forall e | e in es && e.name == es[i].name ensures e == es[i] {
      var j :| 0 <= j < |es| && es[j] == e;
      assert EntryNames(es)[j] == EntryNames(es)[i];
    }
  }

  /** The members of Put(es, e): those of es, and e. */
  lemma {:induction false} PutMembers(es: seq<Entry>, e: Entry)
    ensures forall f :: f in Put(es, e) <==> f in es || f == e
  {
    forall f ensures f in Put(es, e) <==> f in es || f == e {
      InsertAtMembers(es, EnqueuePos(EntryPris(es), e.pri), e, f);
    }
  }

  /** With names distinct, taking off the entry at i takes off exactly the entries of its name. */
  lemma {:induction false} RemoveNamed(es: seq<Entry>, i: nat)
    requires i < |es| && Distinct(EntryNames(es))
    ensures forall e :: e in RemoveAt(es, i) <==> e in es && e.name != es[i].name
  {
    var s := RemoveAt(es, i);
    assert forall j :: 0 <= j < |s| ==> s[j] == if j < i then es[j] else es[j + 1];
    assert es == s[..i] + [es[i]] + s[i..];
    forall e | e in es && e.name == es[i].name ensures e !in s {
      var j :| 0 <= j < |es| && es[j] == e;
      assert EntryNames(es)[j] == EntryNames(es)[i];
    }
    forall e | e in s ensures e.name != es[i].name {
      var j :| 0 <= j < |s| && s[j] == e;
      if j < i {
        assert EntryNames(es)[j] != EntryNames(es)[i];
      } else {
        assert EntryNames(es)[j + 1] != EntryNames(es)[i];
      }
    }
  }

  /** Merging keeps every record that was kept before, and keeps the merged one. */
  lemma {:induction false} MergeKeeps(rom: Rom, es: seq<Entry>, a: int, b: int)
    requires Orderly(rom, es) && Named(rom, a) && b in rom
    ensures Kept(rom, Merge(rom, es, a), a)
    ensures Kept(rom, es, b) ==> Kept(rom, Merge(rom, es, a), b)
  {
    MergeContents(rom, es, a);
    var r := Merge(rom, es, a);
    if Outranked(rom, es, a) {
      var e :| e in es && e.name == rom[a].info.name && e.res in rom && rom[a].info.version < rom[e.res].info.version;
      assert e in r;
    } else {
      assert EntryFor(rom, a) in r;
      if Kept(rom, es, b) {
        var e :| e in es && e.name == rom[b].info.name && e.res in rom && rom[e.res].info.version >= rom[b].info.version;
        if e.name != rom[a].info.name {
          assert e in r;
        } else {
          assert rom[e.res].info.version <= rom[a].info.version;
        }
      }
    }
  }

  /**
   * collectres keeps the highest version: after the scan, for every
   * accepted record and every record already on the list, the list holds a
   * node of that name whose record has at least that version.
   */
  lemma {:induction false} CollectedKeepsHighest(rom: Rom, es: seq<Entry>, addrs: seq<int>)
    requires Proper(rom) && Orderly(rom, es) && forall a :: a in addrs ==> Tagged(rom, a)
    ensures forall a :: a in addrs ==> Kept(rom, Collected(rom, es, addrs), a)
    ensures forall e :: e in es ==> Kept(rom, Collected(rom, es, addrs), e.res)
    decreases |addrs|
  {
    if addrs == [] {
      forall e | e in es ensures Kept(rom, es, e.res) {
        var j :| 0 <= j < |es| && es[j] == e;
        assert Tagged(rom, es[j].res);
      }
    } else {
      var a := addrs[0];
      var m := Merge(rom, es, a);
      MergeOrderly(rom, es, a);
      CollectedKeepsHighest(rom, m, addrs[1..]);
      var r := Collected(rom, m, addrs[1..]);
      assert r == Collected(rom, es, addrs);
      forall e | e in m ensures Kept(rom, r, e.res) {
        var j :| 0 <= j < |m| && m[j] == e;
        assert Tagged(rom, m[j].res);
      }
      MergeKeeps(rom, es, a, a);
      forall b | b in addrs ensures Kept(rom, r, b) {
        if b != a {
          assert b in addrs[1..];
        } else {
          var e :| e in m && e.name == rom[a].info.name && e.res in rom && rom[e.res].info.version >= rom[a].info.version;
          assert Kept(rom, r, e.res);
        }
      }
      forall e | e in es ensures Kept(rom, r, e.res) {
        var j :| 0 <= j < |es| && es[j] == e;
        assert Tagged(rom, es[j].res);
        MergeKeeps(rom, es, a, e.res);
        var f :| f in m && f.name == rom[e.res].info.name && f.res in rom && rom[f.res].info.version >= rom[e.res].info.version;
        assert Kept(rom, r, f.res);
      }
    }
  }

  /** collectres invents nothing: every node afterwards was there before or stands for an accepted record. */
  lemma {:induction false} CollectedFrom(rom: Rom, es: seq<Entry>, addrs: seq<int>)
    requires Proper(rom) && Orderly(rom, es) && forall a :: a in addrs ==> Tagged(rom, a)
    ensures forall e :: e in Collected(rom, es, addrs) ==> e in es || e.res in addrs
    decreases |addrs|
  {
    if addrs != [] {
      var a := addrs[0];
      MergeOrderly(rom, es, a);
      MergeContents(rom, es, a);
      CollectedFrom(rom, Merge(rom, es, a), addrs[1..]);
      assert forall b :: b in addrs[1..] ==> b in addrs;
    }
  }

  /** One turn of the collectres loop on a tagged record, on the list's entries. */
  lemma {:induction false} CollectStep(rom: Rom, es: seq<Entry>, q: int, end: int)
    requires Proper(rom) && Orderly(rom, es) && Tagged(rom, q) && q < end
    ensures Named(rom, q) && Filed(rom, es) && Orderly(rom, Merge(rom, es, q))
    ensures Collected(rom, es, Scanned(rom, q, end)) == Collected(rom, Merge(rom, es, q), Scanned(rom, rom[q].endskip, end))
  {
    MergeOrderly(rom, es, q);
    var rest := Scanned(rom, rom[q].endskip, end);
    assert Scanned(rom, q, end) == [q] + rest;
    assert ([q] + rest)[1..] == rest;
  }

  // ---------------------------------------------------------------------
  // Init levels
  // ---------------------------------------------------------------------

  predicate Auto(res: Resident) {
    res.flags & RTF_AUTOINIT != 0
  }

  function Level(res: Resident): int {
    (res.flags & RTF_LEVEL) as int
  }

  /**
   * The records InitCode(level) initialises, in reslist order: those whose
   * flags masked by RTF_LEVEL equal the level.
   */
  function AtLevel(rom: Rom, es: seq<Entry>, level: int): seq<int>
    requires Filed(rom, es)
    decreases |es|
  {
    if es == [] then []
    else
      var init := es[..|es| - 1];
      var last := es[|es| - 1];
      assert Filed(rom, init) by {
        assert forall i :: 0 <= i < |init| ==> init[i] == es[i];
      }
      AtLevel(rom, init, level) + (if Level(rom[last.res]) == level then [last.res] else [])
  }

  /** InitCode(level) initialises exactly the records of reslist at that level. */
  lemma {:induction false} AtLevelMembers(rom: Rom, es: seq<Entry>, level: int)
    requires Filed(rom, es)
    ensures forall a :: a in AtLevel(rom, es, level) <==> exists i :: 0 <= i < |es| && es[i].res == a && Level(rom[a]) == level
    decreases |es|
  {
    if es != [] {
      var init := es[..|es| - 1];
      var last := es[|es| - 1];
      assert forall i :: 0 <= i < |init| ==> init[i] == es[i];
      AtLevelMembers(rom, init, level);
      forall a ensures a in AtLevel(rom, es, level) <==> exists i :: 0 <= i < |es| && es[i].res == a && Level(rom[a]) == level {
        if a in AtLevel(rom, es, level) && a !in AtLevel(rom, init, level) {
          assert es[|es| - 1].res == a;
        }
      }
    }
  }

  /** Every record of es at the level can be initialised. */
  predicate Startable(rom: Rom, es: seq<Entry>, level: int)
    requires Filed(rom, es)
  {
    forall i :: 0 <= i < |es| && Level(rom[es[i].res]) == level ==> Initable(rom[es[i].res])
  }

  /** AtLevel over one more entry of es. */
  lemma {:induction false} AtLevelNext(rom: Rom, es: seq<Entry>, i: nat, level: int)
    requires Filed(rom, es) && i < |es|
    ensures AtLevel(rom, es[..i + 1], level)
      == AtLevel(rom, es[..i], level) + (if Level(rom[es[i].res]) == level then [es[i].res] else [])
  {
    assert es[..i + 1][..i] == es[..i];
  }

  // ---------------------------------------------------------------------
  // InitResident
  // ---------------------------------------------------------------------

  /** What InitResident hands back: NULL, the exec base (direct init) or the library made. */
  datatype Started = Null | ExecBase | Made(lib: Library)

  /** The int possize as lAllocMem receives it, converted to size_t. */
  function PosSize(possize: int): (r: Mem.size_t)
    requires INT_MIN <= possize <= Memory.INT_MAX
    ensures r % Mem.WORD == possize % Mem.WORD
  {
    if possize < 0 then possize + Mem.WORD else possize
  }

  /** The allocator has no block of n units for a cleared allocation. */
  predicate Denied(rs: seq<Memory.Region>, n: nat) {
    Memory.Choose(rs, n, ANY_CLEAR, 0).None?
  }

  /**
   * A record InitResident can start: possize is a C int, and an automatic
   * record's function table and sizes are what MakeLibrary lays out.
   */
  predicate Initable(res: Resident) {
    INT_MIN <= res.possize <= Memory.INT_MAX && (Auto(res) ==> Sized(res.iauto))
  }

  /** The function table and sizes of an automatic record are what MakeLibrary lays out. */
  predicate Sized(a: ResidentAuto) {
    && a.opsize == PTRSIZE * |a.optable| && a.possize >= 0
    && NegSize(a.opsize) + a.possize <= Memory.INT_MAX
  }

  /** The size of the block MakeLibrary allocates for an automatic record. */
  function LibSize(a: ResidentAuto): Mem.size_t
    requires Sized(a)
  {
    NegSize(a.opsize) + a.possize
  }


  /** The library list after enqueueing l when add holds, as it was otherwise. */
  function Added(ls: seq<Library>, l: Library, add: bool): seq<Library>
    reads ls, l
  {
    if add then InsertAt(ls, EnqueuePos(LibPris(ls), l.pri), l) else ls
  }

  /**
   * iInitResident.  fret is what a direct record's init function returns;
   * initok is whether an automatic record's init function accepts the
   * library.
   */
  method InitResident(mem: Memory.MemoryList, liblist: LibList, devlist: LibList, res: Resident, fret: int, initok: bool)
    returns (r: Started)
    requires mem.Valid() && liblist.Valid() && devlist.Valid() && liblist != devlist && Initable(res)
    modifies mem`regions, mem.headers, liblist`libs, devlist`libs
    ensures mem.Valid() && liblist.Valid() && devlist.Valid()
    ensures !Auto(res) ==>
      && !r.Made? && liblist.libs == old(liblist.libs) && devlist.libs == old(devlist.libs)
      && (r.Null? <==> (res.possize != 0 && Denied(old(mem.regions), Mem.NUnits(PosSize(res.possize)))) || fret != 0)
      && (res.possize == 0 || Denied(old(mem.regions), Mem.NUnits(PosSize(res.possize))) ==> mem.regions == old(mem.regions))
      && (res.possize != 0 && !Denied(old(mem.regions), Mem.NUnits(PosSize(res.possize))) ==>
            exists b :: Memory.Lent(old(mem.regions), mem.regions, b, Mem.NUnits(PosSize(res.possize))))
    ensures Auto(res) ==>
      && !r.ExecBase?
      && (r.Null? <==> !initok || Denied(old(mem.regions), Mem.NUnits(NegSize(res.iauto.opsize) + res.iauto.possize)))
      && (r.Null? ==>
            && liblist.libs == old(liblist.libs) && devlist.libs == old(devlist.libs)
            && Memory.Returned(old(mem.regions), mem.regions, []))
      && (r.Made? ==>
            && fresh(r.lib) && Laid(r.lib, Some(res.info), res.iauto.optable) && r.lib.allocatedsize == LibSize(res.iauto)
            && liblist.libs == Added(old(liblist.libs), r.lib, res.info.ntype == NT_LIBRARY)
            && devlist.libs == Added(old(devlist.libs), r.lib, res.info.ntype == NT_DEVICE))
  {
    if !Auto(res) {
      var ok, posdata := DirectInit(mem, res.possize, fret);
      return if ok then ExecBase else Null;
    }
    var l := AutoInit(mem, liblist, devlist, res, initok);
    return if l == null then Null else Made(l);
  }

  /**
   * The direct branch of iInitResident: possize cleared bytes are allocated
   * when possize is not zero, and init fails when that allocation fails or
   * the init function returns non-zero.  In the second case the block is
   * not given back.  posdata is the block handed to the init function, NULL
   * when none was allocated.
   */
  method DirectInit(mem: Memory.MemoryList, possize: int, fret: int) returns (ok: bool, posdata: int)
    requires mem.Valid() && INT_MIN <= possize <= Memory.INT_MAX
    modifies mem`regions, mem.headers
    ensures mem.Valid()
    ensures ok <==> !(possize != 0 && Denied(old(mem.regions), Mem.NUnits(PosSize(possize)))) && fret == 0
    ensures posdata == Memory.NULL <==> possize == 0 || Denied(old(mem.regions), Mem.NUnits(PosSize(possize)))
    ensures posdata == Memory.NULL ==> mem.regions == old(mem.regions)
    ensures posdata != Memory.NULL ==> Memory.Lent(old(mem.regions), mem.regions, posdata, Mem.NUnits(PosSize(possize)))
  {
    posdata := Memory.NULL;
    if possize != 0 {
      posdata := AllocCleared(mem, PosSize(possize));
      if posdata == Memory.NULL {
        return false, posdata;
      }
    }
    return fret == 0, posdata;
  }

  /**
   * The automatic branch of iInitResident: MakeLibrary from the record's
   * information and table; NULL when that fails, otherwise the library is
   * added to liblist when its node type is NT_LIBRARY, to devlist when it
   * is NT_DEVICE, and to neither list otherwise.
   */
  method AutoInit(mem: Memory.MemoryList, liblist: LibList, devlist: LibList, res: Resident, initok: bool)
    returns (l: Library?)
    requires mem.Valid() && liblist.Valid() && devlist.Valid() && liblist != devlist && Initable(res) && Auto(res)
    modifies mem`regions, mem.headers, liblist`libs, devlist`libs
    ensures mem.Valid() && liblist.Valid() && devlist.Valid()
    ensures l == null <==> !initok || Denied(old(mem.regions), Mem.NUnits(NegSize(res.iauto.opsize) + res.iauto.possize))
    ensures l == null ==>
      && liblist.libs == old(liblist.libs) && devlist.libs == old(devlist.libs)
      && Memory.Returned(old(mem.regions), mem.regions, [])
    ensures l != null ==>
      && fresh(l) && Laid(l, Some(res.info), res.iauto.optable) && l.allocatedsize == LibSize(res.iauto)
      && liblist.libs == Added(old(liblist.libs), l, res.info.ntype == NT_LIBRARY)
      && devlist.libs == Added(old(devlist.libs), l, res.info.ntype == NT_DEVICE)
  {
    l := MakeFor(mem, res.info, res.iauto, initok);
    if l == null {
      return;
    }
    AddByType(liblist, devlist, l);
  }

  /** lMakeLibrary from the record's information and table. */
  method MakeFor(mem: Memory.MemoryList, info: ResidentInfo, a: ResidentAuto, initok: bool) returns (l: Library?)
    requires mem.Valid() && Sized(a)
    modifies mem`regions, mem.headers
    ensures mem.Valid()
    ensures l == null <==> !initok || Denied(old(mem.regions), Mem.NUnits(NegSize(a.opsize) + a.possize))
    ensures l == null ==> Memory.Returned(old(mem.regions), mem.regions, [])
    ensures l != null ==> fresh(l) && Laid(l, Some(info), a.optable) && l.allocatedsize == LibSize(a)
  {
    l := MakeLibrary(mem, Some(info), a, initok);
  }

  /** The switch on the new library's node type in iInitResident: iAddLibrary, iAddDevice or nothing. */
  method AddByType(liblist: LibList, devlist: LibList, l: Library)
    requires liblist.Valid() && devlist.Valid() && liblist != devlist && l !in liblist.libs && l !in devlist.libs
    modifies liblist`libs, devlist`libs
    ensures liblist.Valid() && devlist.Valid()
    ensures liblist.libs == Added(old(liblist.libs), l, l.ntype == NT_LIBRARY)
    ensures devlist.libs == Added(old(devlist.libs), l, l.ntype == NT_DEVICE)
  {
    if l.ntype == NT_LIBRARY {
      liblist.Enqueue(l);
    } else if l.ntype == NT_DEVICE {
      devlist.Enqueue(l);
    }
  }

  // ---------------------------------------------------------------------
  // reslist
  // ---------------------------------------------------------------------

  /** The entries of a node sequence, with each node's record address taken from m. */
  function Entries(ns: seq<Node>, m: map<Node, int>): (r: seq<Entry>)
    reads ns
    requires forall n :: n in ns ==> n in m
    ensures |r| == |ns| && forall i :: 0 <= i < |ns| ==> r[i] == Entry(ns[i].name, ns[i].pri, m[ns[i]])
  {
    seq(|ns|, i requires 0 <= i < |ns| reads ns => Entry(ns[i].name, ns[i].pri, m[ns[i]]))
  }

  /** A node that is not in ns does not change the entries of ns. */
  lemma {:induction false} EntriesOther(ns: seq<Node>, m: map<Node, int>, n: Node, a: int)
    requires (forall x :: x in ns ==> x in m) && n !in ns
    ensures Entries(ns, m[n := a]) == Entries(ns, m)
  {
  }

  lemma {:induction false} EntriesInsertAt(ns: seq<Node>, m: map<Node, int>, i: nat, n: Node)
    requires (forall x :: x in ns ==> x in m) && n in m && i <= |ns|
    ensures forall x :: x in InsertAt(ns, i, n) ==> x in m
    ensures Entries(InsertAt(ns, i, n), m) == InsertAt(Entries(ns, m), i, Entry(n.name, n.pri, m[n]))
  {
    InsertAtMembersAll(ns, i, n);
    var r := InsertAt(ns, i, n);
    forall j | 0 <= j < |r| ensures Entries(r, m)[j] == InsertAt(Entries(ns, m), i, Entry(n.name, n.pri, m[n]))[j] {
      InsertAtIndex(ns, i, n, j);
      InsertAtIndex(Entries(ns, m), i, Entry(n.name, n.pri, m[n]), j);
    }
  }

  lemma {:induction false} EntriesRemoveAt(ns: seq<Node>, m: map<Node, int>, i: nat)
    requires (forall x :: x in ns ==> x in m) && i < |ns|
    ensures forall x :: x in RemoveAt(ns, i) ==> x in ns
    ensures Entries(RemoveAt(ns, i), m) == RemoveAt(Entries(ns, m), i)
  {
    var r := RemoveAt(ns, i);
    assert forall j :: 0 <= j < |r| ==> r[j] == if j < i then ns[j] else ns[j + 1];
    assert forall x :: x in r ==> x in ns;
    assert |Entries(r, m)| == |RemoveAt(Entries(ns, m), i)|;
    forall j | 0 <= j < |r| ensures Entries(r, m)[j] == RemoveAt(Entries(ns, m), i)[j] {
    }
  }

  /** The memory list and the library and device lists InitResident works on are well formed. */
  ghost predicate Ready(mem: Memory.MemoryList, liblist: LibList, devlist: LibList)
    reads mem, mem.headers, liblist, devlist
  {
    mem.Valid() && liblist.Valid() && devlist.Valid() && liblist != devlist
  }

  /** lib->reslist: ResidentNodes, each a list node and the address of its record. */
  class ResList {
    const list: List
    var res: map<Node, int>
    /** Every node that has been on the list. */
    ghost var Repr: set<Node>

    /**
     * The list is well formed, every node has a record, and every name is
     * a C string.
     */
    ghost predicate Valid()
      reads this, list, Repr
    {
      && list.Valid()
      && forall n :: n in list.nodes ==> n in Repr && n in res && (n.name.Some? ==> NUL !in n.name.value)
    }

    ghost function View(): seq<Entry>
      reads this, list, Repr
      requires Valid()
    {
      Entries(list.nodes, res)
    }

    /** iNewList(&lib->reslist) */
    constructor ()
      ensures Valid() && View() == [] && fresh(list)
    {
      list := new List();
      res := map[];
      Repr := {};
    }

    /**
     * collectres: every record accepted between p and end is merged into
     * reslist, in scan order.
     */
    method CollectRes(rom: Rom, p: int, end: int)
      requires Proper(rom) && Valid() && Orderly(rom, View())
      modifies this`res, this`Repr, list, Repr
      ensures Valid() && View() == Collected(rom, old(View()), Scanned(rom, p, end))
      ensures fresh(Repr - old(Repr))
    {
      ghost var goal := Collected(rom, View(), Scanned(rom, p, end));
      var q := p;
      while q < end
        invariant Valid() && Pending(rom, View(), q, end, goal)
        invariant fresh(Repr - old(Repr))
        decreases end - q
      {
        q := Advance(rom, q, end, goal);
      }
      ScanDone(rom, View(), q, end, goal);
    }

    /** One position of the collectres scan: an untagged one is stepped over, a tagged record is visited. */
    method Advance(rom: Rom, q: int, end: int, ghost goal: seq<Entry>) returns (next: int)
      requires Valid() && Pending(rom, View(), q, end, goal) && q < end
      modifies this`res, this`Repr, list, Repr
      ensures Valid() && Pending(rom, View(), next, end, goal) && fresh(Repr - old(Repr))
      ensures next > q
    {
      if !Tagged(rom, q) {
        ScanSkips(rom, View(), q, end, goal);
        next := q + RESIDENT_ALIGN;
      } else {
        next := Visit(rom, q, end, goal);
      }
    }

    /** One tagged record of the collectres scan: it is accepted and the scan resumes at its endskip. */
    method Visit(rom: Rom, q: int, end: int, ghost goal: seq<Entry>) returns (next: int)
      requires Valid() && Pending(rom, View(), q, end, goal) && Tagged(rom, q) && q < end
      modifies this`res, this`Repr, list, Repr
      ensures Valid() && Pending(rom, View(), next, end, goal) && fresh(Repr - old(Repr))
      ensures next > q
    {
      ghost var v := View();
      CollectStep(rom, v, q, end);
      next := rom[q].endskip;
      Accept(rom, q);
    }

    /**
     * The body of the collectres loop for the tagged record at p: a node of
     * that name is looked up; a lower version is ignored; otherwise the
     * node found, or a new one, is filled in from the record and enqueued.
     */
    method Accept(rom: Rom, p: int)
      requires Named(rom, p) && Valid() && Filed(rom, View())
      modifies this`res, this`Repr, list, Repr
      ensures Valid() && View() == Merge(rom, old(View()), p)
      ensures fresh(Repr - old(Repr))
    {
      var r := rom[p];
      ghost var v := View();
      assert Names(list.nodes) == EntryNames(v);
      var rn := list.FindName(r.info.name.value);
      if rn != null {
        ghost var i := FindIndex(EntryNames(v), r.info.name.value).value;
        if r.info.version < rom[res[rn]].info.version {
          return;
        }
        assert IndexOf(list.nodes, rn) == i;
        Unlink(rn, i);
        Fill(rom, p, rn);
      } else {
        rn := new Node(None, NT_UNKNOWN, 0);
        Fill(rom, p, rn);
      }
    }

    /** rn, off the list, is filled in from the record at p and enqueued. */
    method Fill(rom: Rom, p: int, rn: Node)
      requires Named(rom, p) && Valid() && rn !in list.nodes
      modifies rn`name, rn`pri, this`res, this`Repr, list
      ensures Valid() && View() == Put(old(View()), EntryFor(rom, p))
      ensures Repr == old(Repr) + {rn}
    {
      ghost var w := View();
      rn.name := rom[p].info.name;
      rn.pri := rom[p].pri;
      Repr := Repr + {rn};
      assert View() == w;
      Insert(rn, p);
    }

    /** The end of the collectres loop: rn now stands for the record at p and is enqueued. */
    method Insert(rn: Node, p: int)
      requires Valid() && rn in Repr && rn !in list.nodes && (rn.name.Some? ==> NUL !in rn.name.value)
      modifies this`res, list
      ensures Valid() && View() == Put(old(View()), Entry(rn.name, rn.pri, p))
    {
      Bind(rn, p);
      Link(rn);
    }

    /** rn->res = res, for a node off the list: the entries do not change. */
    method Bind(rn: Node, p: int)
      requires Valid() && rn !in list.nodes
      modifies this`res
      ensures Valid() && View() == old(View()) && res == old(res)[rn := p]
    {
      EntriesOther(list.nodes, res, rn, p);
      res := res[rn := p];
    }

    /** iEnqueue(&lib->reslist, &rn->node) */
    method Link(rn: Node)
      requires Valid() && rn in Repr && rn in res && rn !in list.nodes && (rn.name.Some? ==> NUL !in rn.name.value)
      modifies list
      ensures Valid() && View() == Put(old(View()), Entry(rn.name, rn.pri, res[rn]))
    {
      ghost var ns := list.nodes;
      ghost var v := View();
      ghost var k := EnqueuePos(EntryPris(v), rn.pri);
      assert Pris(ns) == EntryPris(v);
      EntriesInsertAt(ns, res, k, rn);
      InsertAtMembersAll(ns, k, rn);
      list.Enqueue(rn);
      assert list.nodes == InsertAt(ns, k, rn);
    }

    /** iRemove of the node at index i; the other entries keep their order. */
    method Unlink(rn: Node, ghost i: nat)
      requires Valid() && i < |list.nodes| && list.nodes[i] == rn
      modifies list
      ensures Valid() && rn !in list.nodes && View() == RemoveAt(old(View()), i)
    {
      ghost var ns := list.nodes;
      assert IndexOf(ns, rn) == i;
      EntriesRemoveAt(ns, res, i);
      list.Remove(rn);
      assert list.nodes == RemoveAt(ns, i);
    }

    /** iFindResident: the record of the first node with that name, or NULL. */
    method FindResident(name: string) returns (r: Option<int>)
      requires Valid() && NUL !in name
      ensures r.None? <==> Some(name) !in EntryNames(View())
      ensures r.Some? ==> exists i :: (0 <= i < |View()| && View()[i].name == Some(name) && View()[i].res == r.value
        && forall j :: 0 <= j < i ==> View()[j].name != Some(name))
    {
      assert Names(list.nodes) == EntryNames(View());
      var n := list.FindName(name);
      if n == null {
        return None;
      }
      return Some(res[n]);
    }

    /** The InitResident call of iInitCode, whose result iInitCode drops. */
    static method Start(mem: Memory.MemoryList, liblist: LibList, devlist: LibList, r: Resident, fret: int, initok: bool)
      requires Ready(mem, liblist, devlist) && Initable(r)
      modifies mem`regions, mem.headers, liblist`libs, devlist`libs
      ensures Ready(mem, liblist, devlist)
    {
      var _ := InitResident(mem, liblist, devlist, r, fret, initok);
    }

    /**
     * iInitCode: every node, in list order, whose record's level is the
     * given one is handed to InitResident; inited is the record addresses
     * handed over.  fret and initok give the outcome of each record's init
     * function, by record address.
     */
    method InitCode(rom: Rom, mem: Memory.MemoryList, liblist: LibList, devlist: LibList, level: int,
                    fret: int -> int, initok: int -> bool)
      returns (inited: seq<int>)
      requires Valid() && Filed(rom, View())
      requires Ready(mem, liblist, devlist)
      requires Startable(rom, View(), level)
      modifies mem`regions, mem.headers, liblist`libs, devlist`libs
      ensures Ready(mem, liblist, devlist)
      ensures inited == AtLevel(rom, old(View()), level)
    {
      ghost var vw := View();
      var ns, m := list.nodes, res;
      assert forall j :: 0 <= j < |ns| ==> ns[j] in m && m[ns[j]] == vw[j].res;
      inited := [];
      var i := 0;
      while i < |ns|
        invariant 0 <= i <= |ns| == |vw|
        invariant Ready(mem, liblist, devlist)
        invariant inited == AtLevel(rom, vw[..i], level)
      {
        var a := m[ns[i]];
        AtLevelNext(rom, vw, i, level);
        if Level(rom[a]) == level {
          Start(mem, liblist, devlist, rom[a], fret(a), initok(a));
          inited := inited + [a];
        }
        i := i + 1;
      }
      assert vw[..i] == vw;
    }
  }
}
