/**
 * The exec memory list (mod/exec/mem.c from iAddMemHeader on): the regions
 * of lib->memlist in priority order, allocation from the first region whose
 * attributes serve the request, FreeMem by address range, the size-prefixed
 * AllocVec blocks, AvailMem and the all-or-nothing AllocEntry.
 *
 * The state of the regions is reasoned about as a sequence of Region
 * values; the blocks handed out and not yet given back are the map live,
 * from block address to its size in Header units.
 */
module Memory {
  import opened Wrappers
  import opened Lists
  import opened Mem

  const NULL: int := 0
  /** sizeof (struct MemList): a Node and an int, on the 32-bit targets. */
  const MEMLIST_SIZE: nat := 20
  /** sizeof (struct MemEntry): a pointer and a size_t. */
  const MEMENTRY_SIZE: nat := 8
  /** The largest int, the type of AllocEntry's numentries. */
  const INT_MAX: int := 0x7FFF_FFFF

  /**
   * A region serves a request iff (mh->attr & attr) == (attr & MEMF_TYPE),
   * both taken as the 32-bit patterns the & operates on.
   */
  predicate Serves(mattr: bv32, attr: bv32)
  {
    mattr & attr == attr & MEMF_TYPE
  }

  /**
   * The same test bit by bit: the region has every type bit of the request,
   * and none of the request's other (MEMF_HOW) bits.
   */
  lemma {:induction false} ServesIff(mattr: bv32, attr: bv32)
    ensures Serves(mattr, attr) <==> (attr & MEMF_TYPE) & !mattr == 0 && (mattr & attr) & !MEMF_TYPE == 0
  {
  }

  /** MEMF_ANY is served by every region whatever its attributes. */
  lemma {:induction false} AnyIsServed(mattr: bv32)
    ensures Serves(mattr, MEMF_ANY)
  {
  }

  /** A MEMF_CLEAR request is never served by a region whose own attr has that bit. */
  lemma {:induction false} ClearNeedsClearBitOff(mattr: bv32, attr: bv32)
    requires attr & MEMF_CLEAR != 0 && mattr & MEMF_CLEAR != 0
    ensures !Serves(mattr, attr)
  {
  }

  // ---------------------------------------------------------------------
  // Regions as values
  // ---------------------------------------------------------------------

  /** The part of a MemHeader the allocator reads and writes. */
  datatype Region = Region(lower: int, upper: int, attr: bv32, runs: seq<Run>, first: nat, free: int)

  predicate Ok(r: Region)
  {
    RegionOk(r.lower, r.upper, r.runs, r.first, r.free)
  }

  /** iFreeMem's test: mh->lower <= ptr && ptr <= mh->upper. */
  predicate Contains(r: Region, p: int)
  {
    r.lower <= p <= r.upper
  }

  /** Two regions that no pointer can be inside of both. */
  predicate Apart(r: Region, s: Region)
  {
    r.upper < s.lower || s.upper < r.lower
  }

  /** The first region at or after k that contains p: the one iFreeMem picks. */
  function Owner(rs: seq<Region>, p: int, k: nat): (o: Option<nat>)
    requires k <= |rs|
    ensures o.Some? ==> k <= o.value < |rs| && Contains(rs[o.value], p)
    ensures o.Some? ==> forall m :: k <= m < o.value ==> !Contains(rs[m], p)
    ensures o.None? ==> forall m :: k <= m < |rs| ==> !Contains(rs[m], p)
    decreases |rs| - k
  {
    if k == |rs| then None
    else if Contains(rs[k], p) then Some(k)
    else Owner(rs, p, k + 1)
  }

  /** What the memory list keeps of its regions: each well formed, no two overlapping. */
  predicate Sane(rs: seq<Region>)
  {
    && (forall i :: 0 <= i < |rs| ==> Ok(rs[i]))
    && (forall i, j {:trigger Apart(rs[i], rs[j])} :: 0 <= i < j < |rs| ==> Apart(rs[i], rs[j]))
  }

  /** Inserting a well-formed region apart from all others keeps the list sane. */
  lemma {:induction false} SaneInsert(rs: seq<Region>, pos: nat, r: Region)
    requires Sane(rs) && pos <= |rs| && Ok(r)
    requires forall k :: 0 <= k < |rs| ==> r.upper < rs[k].lower || rs[k].upper < r.lower
    ensures Sane(InsertAt(rs, pos, r))
  {
    var t := InsertAt(rs, pos, r);
    forall a | 0 <= a < |t| ensures Ok(t[a]) {
      if a < pos {
        assert t[a] == rs[a];
      } else if a > pos {
        assert t[a] == rs[a - 1];
      }
    }
    forall a, b | 0 <= a < b < |t| ensures Apart(t[a], t[b]) {
      if b < pos {
        assert t[a] == rs[a] && t[b] == rs[b];
      } else if a > pos {
        assert t[a] == rs[a - 1] && t[b] == rs[b - 1];
      } else if a < pos && b > pos {
        assert t[a] == rs[a] && t[b] == rs[b - 1];
      } else if a == pos {
        assert t[b] == rs[b - 1];
      } else {
        assert t[a] == rs[a];
      }
    }
  }

  /** Replacing a region by a well-formed one with the same bounds keeps the list sane. */
  lemma {:induction false} SaneUpdate(rs: seq<Region>, k: nat, r: Region)
    requires Sane(rs) && k < |rs| && Ok(r) && r.lower == rs[k].lower && r.upper == rs[k].upper
    ensures Sane(rs[k := r])
  {
    var t := rs[k := r];
    forall a, b | 0 <= a < b < |t| ensures Apart(t[a], t[b]) {
      assert Apart(rs[a], rs[b]);
    }
  }

  /** Block b of m units is in use in the region that contains it. */
  predicate InUse(rs: seq<Region>, b: int, m: nat)
  {
    var o := Owner(rs, b, 0);
    o.Some? && Releasable(rs[o.value].runs, b, m) && b + m * HSIZE <= rs[o.value].upper
  }

  /** Two blocks that share no byte. */
  predicate Disjoint(b: int, m: nat, c: int, k: nat)
  {
    b + m * HSIZE <= c || c + k * HSIZE <= b
  }

  /**
   * The invariant of the memory list: every region is well formed, no two
   * regions overlap, every block in use lies in its region and outside its
   * free list, and no two blocks in use overlap.
   */
  predicate Consistent(rs: seq<Region>, live: map<int, nat>)
  {
    && Sane(rs)
    && (forall b :: b in live ==> InUse(rs, b, live[b]))
    && (forall b, c :: b in live && c in live && b != c ==> Disjoint(b, live[b], c, live[c]))
  }

  /** In a list of apart regions, the region that contains p is the only one. */
  lemma {:induction false} OwnerUnique(rs: seq<Region>, p: int, i: nat, k: nat)
    requires forall a, b {:trigger Apart(rs[a], rs[b])} :: 0 <= a < b < |rs| ==> Apart(rs[a], rs[b])
    requires k <= i < |rs| && Contains(rs[i], p)
    ensures Owner(rs, p, k) == Some(i)
    decreases i - k
  {
    if k < i {
      assert Apart(rs[k], rs[i]);
      OwnerUnique(rs, p, i, k + 1);
    }
  }

  /** Two lists of regions with the same bounds, position by position. */
  predicate SameBounds(rs: seq<Region>, ts: seq<Region>)
  {
    |rs| == |ts| && forall i :: 0 <= i < |rs| ==> rs[i].lower == ts[i].lower && rs[i].upper == ts[i].upper
  }

  /** Owner looks only at the bounds of the regions. */
  lemma {:induction false} OwnerBounds(rs: seq<Region>, ts: seq<Region>, p: int, k: nat)
    requires SameBounds(rs, ts) && k <= |rs|
    ensures Owner(rs, p, k) == Owner(ts, p, k)
    decreases |rs| - k
  {
    if k < |rs| {
      OwnerBounds(rs, ts, p, k + 1);
    }
  }

  /**
   * Replacing region i by a well-formed one with the same bounds keeps the
   * list consistent with live2 when every block of live2 is in use and no
   * two of them overlap.
   */
  lemma {:induction false} ConsistentUpdate(rs: seq<Region>, live: map<int, nat>, t: seq<Region>, i: nat, live2: map<int, nat>)
    requires Consistent(rs, live) && i < |rs| && |t| == |rs|
    requires forall k :: 0 <= k < |rs| && k != i ==> t[k] == rs[k]
    requires Ok(t[i]) && t[i].lower == rs[i].lower && t[i].upper == rs[i].upper
    requires forall c :: c in live2 ==> InUse(t, c, live2[c])
    requires forall b, c :: b in live2 && c in live2 && b != c ==> Disjoint(b, live2[b], c, live2[c])
    ensures Consistent(t, live2)
  {
    forall a, b | 0 <= a < b < |t| ensures Apart(t[a], t[b]) {
      assert Apart(rs[a], rs[b]);
    }
  }

  // ---------------------------------------------------------------------
  // The region chosen by AllocMem
  // ---------------------------------------------------------------------

  /** Region r has a free run of at least n units: lAllocate succeeds on it. */
  predicate HasRun(r: Region, n: nat)
  {
    r.first < |r.runs| && Fit(r.runs, r.first, n).Some?
  }

  /**
   * The first region at or after k, in list order, that serves attr and has
   * a run of at least n units: where iAllocMem's loop gets its block.
   */
  function Choose(rs: seq<Region>, n: nat, attr: bv32, k: nat): (o: Option<nat>)
    requires k <= |rs|
    ensures o.Some? ==> k <= o.value < |rs| && Serves(rs[o.value].attr, attr) && HasRun(rs[o.value], n)
    decreases |rs| - k
  {
    if k == |rs| then None
    else if Serves(rs[k].attr, attr) && HasRun(rs[k], n) then Some(k)
    else Choose(rs, n, attr, k + 1)
  }

  /**
   * Choose is the first choice: every region before it either does not
   * serve attr or has no run of n units, and None means no serving region
   * has one.
   */
  lemma {:induction false} ChooseIsFirst(rs: seq<Region>, n: nat, attr: bv32, k: nat)
    requires k <= |rs| && forall i :: 0 <= i < |rs| ==> rs[i].first < |rs[i].runs|
    ensures var o := Choose(rs, n, attr, k);
      forall m :: k <= m < (if o.Some? then o.value else |rs|) ==>
        !Serves(rs[m].attr, attr) || forall i :: 0 <= i < |rs[m].runs| ==> rs[m].runs[i].units < n
    decreases |rs| - k
  {
    if k < |rs| && !(Serves(rs[k].attr, attr) && HasRun(rs[k], n)) {
      var o := Choose(rs, n, attr, k);
      assert o == Choose(rs, n, attr, k + 1);
      ChooseIsFirst(rs, n, attr, k + 1);
      forall m | k <= m < (if o.Some? then o.value else |rs|)
        ensures !Serves(rs[m].attr, attr) || forall i :: 0 <= i < |rs[m].runs| ==> rs[m].runs[i].units < n
      {
        if m == k && Serves(rs[k].attr, attr) {
          assert Fit(rs[k].runs, rs[k].first, n).None?;
        }
      }
    }
  }

  /** The regions after n units are taken from run j of region i, which becomes the new rover. */
  function TakeAt(rs: seq<Region>, i: nat, j: nat, n: nat): seq<Region>
    requires i < |rs| && 1 <= j < |rs[i].runs| && rs[i].runs[j].units >= n
  {
    var r := rs[i];
    rs[i := Region(r.lower, r.upper, r.attr, Carve(r.runs, j, n), j - 1, r.free - n * HSIZE)]
  }

  /** The regions after n units are taken from region i: from the run Fit finds. */
  function Alloc(rs: seq<Region>, i: nat, n: nat): seq<Region>
    requires i < |rs| && Ok(rs[i]) && n >= 1 && Fit(rs[i].runs, rs[i].first, n).Some?
  {
    TakeAt(rs, i, Fit(rs[i].runs, rs[i].first, n).value, n)
  }

  /** The block handed out by Alloc. */
  function AllocBlock(rs: seq<Region>, i: nat, n: nat): int
    requires i < |rs| && rs[i].first < |rs[i].runs| && Fit(rs[i].runs, rs[i].first, n).Some?
  {
    CarvedBlock(rs[i].runs, Fit(rs[i].runs, rs[i].first, n).value, n)
  }

  /** The regions after block b of n units is given back to region i. */
  function Free(rs: seq<Region>, i: nat, b: int, n: nat): seq<Region>
    requires i < |rs| && |rs[i].runs| >= 1 && rs[i].runs[0].addr < b
  {
    var r := rs[i];
    rs[i := Region(r.lower, r.upper, r.attr, Freed(r.runs, b, n), PredIndex(r.runs, b), r.free + n * HSIZE)]
  }

  /** Free replaces region i by the one whose runs, walk start and free count are r's. */
  lemma {:induction false} FreeAt(rs: seq<Region>, i: nat, b: int, n: nat, r: Region)
    requires i < |rs| && |rs[i].runs| >= 1 && rs[i].runs[0].addr < b
    requires r.lower == rs[i].lower && r.upper == rs[i].upper && r.attr == rs[i].attr
    requires r.runs == Freed(rs[i].runs, b, n) && r.first == PredIndex(rs[i].runs, b) && r.free == rs[i].free + n * HSIZE
    ensures Free(rs, i, b, n) == rs[i := r]
  {
  }

  /** Taking a block from region i leaves every other block in use. */
  lemma {:induction false} AllocKeepsInUse(rs: seq<Region>, live: map<int, nat>, i: nat, n: nat, c: int)
    requires Consistent(rs, live) && i < |rs| && n >= 1 && Fit(rs[i].runs, rs[i].first, n).Some?
    requires c in live
    ensures InUse(Alloc(rs, i, n), c, live[c])
    ensures Disjoint(AllocBlock(rs, i, n), n, c, live[c])
  {
    var r := rs[i];
    var j := Fit(r.runs, r.first, n).value;
    var b := AllocBlock(rs, i, n);
    var t := Alloc(rs, i, n);
    assert SameBounds(rs, t);
    OwnerBounds(rs, t, c, 0);
    var o := Owner(rs, c, 0).value;
    assert InUse(rs, c, live[c]);
    CarveFree(r.runs, j, n, b);
    CarvedInside(r.runs, j, n);
    if o == i {
      CarveKeeps(r.runs, j, n, c, live[c]);
    } else {
      assert Apart(rs[o], rs[i]) || Apart(rs[i], rs[o]);
      assert rs[o].lower <= rs[o].runs[0].addr;
    }
  }

  /** The block taken from region i lies in region i, above its sentinel. */
  lemma {:induction false} AllocBlockInside(rs: seq<Region>, i: nat, n: nat)
    requires i < |rs| && Ok(rs[i]) && n >= 1 && Fit(rs[i].runs, rs[i].first, n).Some?
    requires forall a, b {:trigger Apart(rs[a], rs[b])} :: 0 <= a < b < |rs| ==> Apart(rs[a], rs[b])
    ensures var b := AllocBlock(rs, i, n);
      && rs[i].runs[0].addr < b && b + n * HSIZE <= rs[i].upper
      && b != NULL && Owner(rs, b, 0) == Some(i)
  {
    var r := rs[i];
    var j := Fit(r.runs, r.first, n).value;
    var b := AllocBlock(rs, i, n);
    CarvedInside(r.runs, j, n);
    OwnerUnique(rs, b, i, 0);
  }

  /** Taking n units from run j leaves region i well formed, with run j - 1 as its rover. */
  lemma {:induction false} TakeAtOk(rs: seq<Region>, i: nat, j: nat, n: nat)
    requires i < |rs| && Ok(rs[i]) && 1 <= j < |rs[i].runs| && rs[i].runs[j].units >= n >= 1
    ensures Ok(TakeAt(rs, i, j, n)[i])
  {
    var r := rs[i];
    CarveWellFormed(r.runs, j, n);
    CarveUnits(r.runs, j, n);
    CarveInside(r.runs, j, n, r.lower, r.upper);
  }

  /** After the block is taken, region i is well formed and the block is in use. */
  lemma {:induction false} AllocBlockInUse(rs: seq<Region>, i: nat, n: nat)
    requires i < |rs| && Ok(rs[i]) && n >= 1 && Fit(rs[i].runs, rs[i].first, n).Some?
    requires forall a, b {:trigger Apart(rs[a], rs[b])} :: 0 <= a < b < |rs| ==> Apart(rs[a], rs[b])
    ensures Ok(Alloc(rs, i, n)[i]) && InUse(Alloc(rs, i, n), AllocBlock(rs, i, n), n)
  {
    var r := rs[i];
    var j := Fit(r.runs, r.first, n).value;
    var b := AllocBlock(rs, i, n);
    var t := Alloc(rs, i, n);
    TakeAtOk(rs, i, j, n);
    CarvedReleasable(r.runs, j, n);
    AllocBlockInside(rs, i, n);
    assert SameBounds(rs, t);
    OwnerBounds(rs, t, b, 0);
  }

  /**
   * Taking a block keeps the memory list consistent: the block is not NULL,
   * lies in region i, overlaps no block in use, and is now in use.
   */
  lemma {:induction false} AllocConsistent(rs: seq<Region>, live: map<int, nat>, i: nat, n: nat)
    requires Consistent(rs, live) && i < |rs| && n >= 1 && Fit(rs[i].runs, rs[i].first, n).Some?
    ensures var b := AllocBlock(rs, i, n);
      && b != NULL && b !in live && Owner(rs, b, 0) == Some(i)
      && Consistent(Alloc(rs, i, n), live[b := n])
  {
    var b := AllocBlock(rs, i, n);
    var t := Alloc(rs, i, n);
    var live2 := live[b := n];
    AllocBlockInside(rs, i, n);
    AllocBlockInUse(rs, i, n);
    forall c | c in live ensures InUse(t, c, live[c]) && Disjoint(b, n, c, live[c]) {
      AllocKeepsInUse(rs, live, i, n, c);
    }
    assert b !in live by {
      if b in live {
        AllocKeepsInUse(rs, live, i, n, b);
      }
    }
    forall c | c in live2 ensures InUse(t, c, live2[c]) {
    }
    forall c, d | c in live2 && d in live2 && c != d ensures Disjoint(c, live2[c], d, live2[d]) {
      if c != b && d != b {
        assert Disjoint(c, live[c], d, live[d]);
      }
    }
    ConsistentUpdate(rs, live, t, i, live2);
  }

  /** Giving back block b leaves every other block in use. */
  lemma {:induction false} FreeKeepsInUse(rs: seq<Region>, live: map<int, nat>, b: int, c: int)
    requires Consistent(rs, live) && b in live && c in live && c != b
    ensures var i := Owner(rs, b, 0).value;
      rs[i].runs[0].addr < b && InUse(Free(rs, i, b, live[b]), c, live[c])
  {
    var i := Owner(rs, b, 0).value;
    var r := rs[i];
    assert InUse(rs, b, live[b]);
    var t := Free(rs, i, b, live[b]);
    assert SameBounds(rs, t);
    OwnerBounds(rs, t, c, 0);
    assert InUse(rs, c, live[c]);
    if Owner(rs, c, 0).value == i {
      assert Disjoint(b, live[b], c, live[c]);
      FreedKeeps(r.runs, b, live[b], c, live[c]);
    }
  }

  /** Giving back a block leaves its region well formed. */
  lemma {:induction false} FreeRegionOk(rs: seq<Region>, i: nat, b: int, n: nat)
    requires i < |rs| && Ok(rs[i]) && Releasable(rs[i].runs, b, n) && b + n * HSIZE <= rs[i].upper
    ensures Ok(Free(rs, i, b, n)[i])
  {
    var r := rs[i];
    FreedWellFormed(r.runs, b, n);
    FreedUnits(r.runs, b, n);
    FreedInside(r.runs, b, n, r.upper);
  }

  /** Giving back a block in use keeps the memory list consistent. */
  lemma {:induction false} FreeConsistent(rs: seq<Region>, live: map<int, nat>, b: int)
    requires Consistent(rs, live) && b in live
    ensures var i := Owner(rs, b, 0).value;
      && rs[i].runs[0].addr < b
      && Consistent(Free(rs, i, b, live[b]), live - {b})
  {
    var i := Owner(rs, b, 0).value;
    var r := rs[i];
    var n := live[b];
    assert InUse(rs, b, n);
    var t := Free(rs, i, b, n);
    FreeRegionOk(rs, i, b, n);
    forall c | c in live - {b} ensures InUse(t, c, live[c]) {
      FreeKeepsInUse(rs, live, b, c);
    }
    ConsistentUpdate(rs, live, t, i, live - {b});
  }

  /** The number of free bytes in the regions that serve attr: what iAvailMem adds up. */
  function Avail(rs: seq<Region>, attr: bv32): int
  {
    if rs == [] then 0
    else Avail(rs[..|rs| - 1], attr) + (if Serves(rs[|rs| - 1].attr, attr) then rs[|rs| - 1].free else 0)
  }

  /** One more region added to a size_t running total of Avail. */
  lemma {:induction false} AvailStep(rs: seq<Region>, i: nat, attr: bv32, sum: int)
    requires i < |rs| && sum == Avail(rs[..i], attr) % WORD
    ensures (if Serves(rs[i].attr, attr) then (sum + rs[i].free) % WORD else sum)
      == Avail(rs[..i + 1], attr) % WORD
  {
    assert rs[..i + 1][..i] == rs[..i];
    var d := if Serves(rs[i].attr, attr) then rs[i].free else 0;
    assert Avail(rs[..i + 1], attr) == Avail(rs[..i], attr) + d;
    ModAdd(Avail(rs[..i], attr), d);
  }

  /** Reducing a running total before adding to it does not change the sum's residue. */
  lemma {:induction false} ModAdd(a: int, d: int)
    ensures (a % WORD + d) % WORD == (a + d) % WORD
  {
    var q := a / WORD;
    assert a == q * WORD + a % WORD;
    assert a + d == (a % WORD + d) + q * WORD;
  }

  /** Avail changes by d when region i's free changes by d and it serves attr. */
  lemma {:induction false} AvailUpdate(rs: seq<Region>, i: nat, r: Region, attr: bv32)
    requires i < |rs| && r.attr == rs[i].attr
    ensures Avail(rs[i := r], attr) == Avail(rs, attr) + (if Serves(r.attr, attr) then r.free - rs[i].free else 0)
  {
    var t := rs[i := r];
    if i < |rs| - 1 {
      assert t[..|t| - 1] == rs[..|rs| - 1][i := r];
      AvailUpdate(rs[..|rs| - 1], i, r, attr);
    } else {
      assert t[..|t| - 1] == rs[..|rs| - 1];
    }
  }

  /**
   * Allocating a block and giving it back restores every region's free
   * count, and with it AvailMem for every attr.
   */
  lemma {:induction false} AllocThenFree(rs: seq<Region>, i: nat, n: nat, attr: bv32)
    requires i < |rs| && Ok(rs[i]) && n >= 1 && Fit(rs[i].runs, rs[i].first, n).Some?
    requires forall a, b {:trigger Apart(rs[a], rs[b])} :: 0 <= a < b < |rs| ==> Apart(rs[a], rs[b])
    ensures var b := AllocBlock(rs, i, n);
      var t := Alloc(rs, i, n);
      && Owner(t, b, 0) == Some(i)
      && t[i].runs[0].addr < b
      && (forall k :: 0 <= k < |rs| ==> Free(t, i, b, n)[k].free == rs[k].free)
      && Avail(Free(t, i, b, n), attr) == Avail(rs, attr)
  {
    var b := AllocBlock(rs, i, n);
    var t := Alloc(rs, i, n);
    var j := Fit(rs[i].runs, rs[i].first, n).value;
    AllocBlockInside(rs, i, n);
    CarveWellFormed(rs[i].runs, j, n);
    assert SameBounds(rs, t);
    OwnerBounds(rs, t, b, 0);
    var f := Free(t, i, b, n);
    assert f == rs[i := f[i]];
    AvailUpdate(rs, i, f[i], attr);
  }

  /** ... and region i has the same free addresses as before. */
  lemma {:induction false} AllocThenFreeAddresses(rs: seq<Region>, i: nat, n: nat, a: int)
    requires i < |rs| && Ok(rs[i]) && n >= 1 && Fit(rs[i].runs, rs[i].first, n).Some?
    ensures var b := AllocBlock(rs, i, n);
      var t := Alloc(rs, i, n);
      t[i].runs[0].addr < b
      && (IsFree(Free(t, i, b, n)[i].runs, a) <==> IsFree(rs[i].runs, a))
  {
    var j := Fit(rs[i].runs, rs[i].first, n).value;
    CarvedInside(rs[i].runs, j, n);
    CarveWellFormed(rs[i].runs, j, n);
    AllocateThenDeallocate(rs[i].runs, j, n, a);
  }

  /**
   * The block iAllocMem hands out is not NULL, lies in region i, and is in
   * use in the list that results; the list stays sane.
   */
  lemma {:induction false} AllocInUse(rs: seq<Region>, i: nat, n: nat)
    requires Sane(rs) && i < |rs| && n >= 1 && Fit(rs[i].runs, rs[i].first, n).Some?
    ensures var b := AllocBlock(rs, i, n);
      && b != NULL && Owner(rs, b, 0) == Some(i)
      && Sane(Alloc(rs, i, n)) && InUse(Alloc(rs, i, n), b, n)
  {
    AllocBlockInside(rs, i, n);
    AllocBlockInUse(rs, i, n);
    SaneUpdate(rs, i, Alloc(rs, i, n)[i]);
  }

  /**
   * A constructor's failure path: the block iAllocMem just handed out may
   * go straight back to iFreeMem, and that leaves the regions as they were
   * before the allocation, free counts included.
   */
  lemma {:induction false} GiveBack(rs: seq<Region>, i: nat, n: nat)
    requires Sane(rs) && i < |rs| && n >= 1 && Fit(rs[i].runs, rs[i].first, n).Some?
    ensures var b := AllocBlock(rs, i, n);
      var t := Alloc(rs, i, n);
      && Returnable(t, b, n)
      && Returned(rs, Released(t, b, n), [])
  {
    AllocBlockInUse(rs, i, n);
    AllocThenFree(rs, i, n, 0);
    ReturnedAsWas(rs, Released(Alloc(rs, i, n), AllocBlock(rs, i, n), n));
  }

  /**
   * rs is rs0 with block b of n units handed out: b may go back to
   * iFreeMem, and giving it back restores every free count of rs0.
   */
  predicate Lent(rs0: seq<Region>, rs: seq<Region>, b: int, n: nat)
  {
    b != NULL && Returnable(rs, b, n) && Returned(rs0, Released(rs, b, n), [])
  }

  /** Regions with the bounds and free counts of rs are rs given back in full. */
  lemma {:induction false} ReturnedAsWas(rs: seq<Region>, u: seq<Region>)
    requires |u| == |rs|
    requires forall k :: 0 <= k < |rs| ==>
      u[k].lower == rs[k].lower && u[k].upper == rs[k].upper && u[k].attr == rs[k].attr && u[k].free == rs[k].free
    ensures Returned(rs, u, [])
  {
  }

  /** The block handed out is never NULL: it lies above the sentinel. */
  lemma {:induction false} AllocBlockNotNull(rs: seq<Region>, i: nat, n: nat)
    requires i < |rs| && Ok(rs[i]) && n >= 1 && Fit(rs[i].runs, rs[i].first, n).Some?
    ensures AllocBlock(rs, i, n) != NULL
  {
    CarvedInside(rs[i].runs, Fit(rs[i].runs, rs[i].first, n).value, n);
  }

  // ---------------------------------------------------------------------
  // FreeMem, AllocVec and the blocks of a MemList
  // ---------------------------------------------------------------------

  /**
   * What iFreeMem may be given: NULL, a pointer no region contains, or a
   * block of n units in use.
   */
  predicate Returnable(rs: seq<Region>, ptr: int, n: nat)
  {
    ptr == NULL || Owner(rs, ptr, 0).None? || InUse(rs, ptr, n)
  }

  /**
   * The regions after iFreeMem(ptr) of n units: unchanged for NULL and for
   * a pointer no region contains, else the block goes back to its owner.
   */
  function Released(rs: seq<Region>, ptr: int, n: nat): seq<Region>
    requires Returnable(rs, ptr, n)
  {
    if ptr == NULL then rs
    else match Owner(rs, ptr, 0)
      case None => rs
      case Some(i) => Free(rs, i, ptr, n)
  }

  /** iAllocVec's request as written: numbytes += sizeof *p, in size_t. */
  function VecBytesAsWritten(numbytes: size_t): size_t
  {
    (numbytes + ALIGN) % WORD
  }

  /**
   * Near the top of size_t the addition wraps: a request for WORD - ALIGN
   * bytes asks AllocMem for no bytes at all, and the single unit it gets
   * holds the size word and nothing of the request.
   */
  lemma {:induction false} VecBytesWraps()
    ensures VecBytesAsWritten(WORD - ALIGN) == 0
    ensures NUnits(VecBytesAsWritten(WORD - ALIGN)) * HSIZE == ALIGN
  {
  }

  /** The bytes iAllocVec asks AllocMem for, or None when the size word does not fit in size_t. */
  function VecBytes(numbytes: size_t): Option<size_t>
  {
    if numbytes < WORD - ALIGN then Some(numbytes + ALIGN) else None
  }

  /**
   * A request VecBytes accepts gets a block that holds the size word and
   * then numbytes bytes; only requests that would wrap are refused.
   */
  lemma {:induction false} VecBlockHolds(numbytes: size_t)
    ensures VecBytes(numbytes).Some? <==> numbytes + ALIGN < WORD
    ensures VecBytes(numbytes).Some? ==> NUnits(VecBytes(numbytes).value) * HSIZE >= ALIGN + numbytes
    ensures VecBytes(numbytes).Some? ==> VecBytes(numbytes).value == VecBytesAsWritten(numbytes)
  {
    if numbytes < WORD - ALIGN {
      NUnitsIsLeastCover(numbytes + ALIGN);
    }
  }

  /** struct MemRequest: the attributes (a short, as the 32-bit pattern it widens to) and the size of one block. */
  datatype MemRequest = MemRequest(attr: bv32, size: size_t)

  /** struct MemEntry: the block AllocEntry got for one request (NULL for none) and its size. */
  datatype MemEntry = MemEntry(ptr: int, size: size_t)

  /** A block a caller holds: its address (NULL for none) and its size in Header units. */
  datatype Hold = Hold(addr: int, units: nat)

  /** sizeof (*ml) + num * sizeof (MemEntry), computed in size_t as the C code does. */
  function MemListSize(num: int): size_t
  {
    (MEMLIST_SIZE + num * MEMENTRY_SIZE) % WORD
  }

  /** The blocks a MemList holds, in the order iFreeEntry gives them back: its entries, then itself. */
  function Held(ml: int, num: int, entries: seq<MemEntry>): (hs: seq<Hold>)
    ensures |hs| == |entries| + 1 && hs[|entries|] == Hold(ml, NUnits(MemListSize(num)))
    ensures forall i :: 0 <= i < |entries| ==> hs[i] == Hold(entries[i].ptr, NUnits(entries[i].size))
  {
    seq(|entries|, i requires 0 <= i < |entries| => Hold(entries[i].ptr, NUnits(entries[i].size)))
      + [Hold(ml, NUnits(MemListSize(num)))]
  }

  /** Filling entry i of a MemList replaces block i of what it holds. */
  lemma {:induction false} HeldUpdate(ml: int, num: int, entries: seq<MemEntry>, i: nat, e: MemEntry)
    requires i < |entries|
    ensures Held(ml, num, entries[i := e]) == Held(ml, num, entries)[i := Hold(e.ptr, NUnits(e.size))]
  {
    var a := Held(ml, num, entries[i := e]);
    var b := Held(ml, num, entries)[i := Hold(e.ptr, NUnits(e.size))];
    assert |a| == |b|;
    forall k | 0 <= k < |a| ensures a[k] == b[k] {
    }
  }

  /** The units of block h that region k gave out. */
  function Share(rs: seq<Region>, h: Hold, k: nat): nat
  {
    if h.addr != NULL && Owner(rs, h.addr, 0) == Some(k) then h.units else 0
  }

  /** The units of the blocks hs that region k gave out. */
  function Owed(rs: seq<Region>, hs: seq<Hold>, k: nat): nat
  {
    if hs == [] then 0 else Share(rs, hs[0], k) + Owed(rs, hs[1..], k)
  }

  /** The blocks of hs other than NULL, by address. */
  function Live(hs: seq<Hold>): map<int, nat>
  {
    if hs == [] then map[]
    else if hs[0].addr == NULL then Live(hs[1..])
    else Live(hs[1..])[hs[0].addr := hs[0].units]
  }

  /** No block but NULL appears twice. */
  predicate Separate(hs: seq<Hold>)
  {
    forall i, j :: 0 <= i < j < |hs| && hs[i].addr != NULL ==> hs[i].addr != hs[j].addr
  }

  /** The blocks hs are in use in rs, and no two of them overlap. */
  predicate Holding(rs: seq<Region>, hs: seq<Hold>)
  {
    Separate(hs) && Consistent(rs, Live(hs))
  }

  /**
   * ts is rs with the blocks hs given back: the same regions, each free
   * count raised by the bytes of the blocks it gave out.
   */
  predicate Returned(rs: seq<Region>, ts: seq<Region>, hs: seq<Hold>)
  {
    && |ts| == |rs|
    && (forall k :: 0 <= k < |rs| ==>
          && ts[k].lower == rs[k].lower && ts[k].upper == rs[k].upper && ts[k].attr == rs[k].attr
          && ts[k].free == rs[k].free + HSIZE * Owed(rs, hs, k))
  }

  /** The addresses Live keeps are those of the blocks other than NULL. */
  lemma {:induction false} LiveKeys(hs: seq<Hold>, a: int)
    ensures a in Live(hs) <==> a != NULL && exists i :: 0 <= i < |hs| && hs[i].addr == a
  {
    if hs != [] {
      LiveKeys(hs[1..], a);
      if a != NULL && a !in Live(hs) {
        forall i | 0 <= i < |hs| ensures hs[i].addr != a {
          if i > 0 {
            assert hs[1..][i - 1] == hs[i];
          }
        }
      }
      if a in Live(hs[1..]) {
        var i :| 0 <= i < |hs[1..]| && hs[1..][i].addr == a;
        assert hs[i + 1].addr == a;
      }
    }
  }

  /** Live of a list whose first block is not NULL: that block, and the rest. */
  lemma {:induction false} LiveFirst(hs: seq<Hold>)
    requires Separate(hs) && hs != [] && hs[0].addr != NULL
    ensures hs[0].addr in Live(hs) && Live(hs)[hs[0].addr] == hs[0].units
    ensures Live(hs) - {hs[0].addr} == Live(hs[1..])
  {
    forall i | 0 <= i < |hs| - 1 ensures hs[1..][i].addr != hs[0].addr {
      assert hs[1..][i] == hs[i + 1];
    }
    LiveKeys(hs[1..], hs[0].addr);
  }

  /** Filling a NULL entry with a new block b adds b to Live. */
  lemma {:induction false} LiveUpdate(hs: seq<Hold>, i: nat, b: int, n: nat)
    requires i < |hs| && hs[i].addr == NULL && b != NULL && b !in Live(hs)
    ensures Live(hs[i := Hold(b, n)]) == Live(hs)[b := n]
  {
    var t := hs[i := Hold(b, n)];
    if i == 0 {
      assert t[1..] == hs[1..];
    } else {
      assert t[1..] == hs[1..][i - 1 := Hold(b, n)];
      LiveUpdate(hs[1..], i - 1, b, n);
    }
  }

  /** ... and keeps the blocks apart from each other. */
  lemma {:induction false} SeparateUpdate(hs: seq<Hold>, i: nat, b: int, n: nat)
    requires Separate(hs) && i < |hs| && b != NULL && b !in Live(hs)
    ensures Separate(hs[i := Hold(b, n)])
  {
    forall j | 0 <= j < |hs| ensures hs[j].addr != b {
      LiveKeys(hs, b);
    }
  }

  /** Owed adds up over concatenation. */
  lemma {:induction false} OwedConcat(rs: seq<Region>, a: seq<Hold>, b: seq<Hold>, k: nat)
    ensures Owed(rs, a + b, k) == Owed(rs, a, k) + Owed(rs, b, k)
  {
    if a != [] {
      assert (a + b)[0] == a[0] && (a + b)[1..] == a[1..] + b;
      OwedConcat(rs, a[1..], b, k);
      assert Owed(rs, a + b, k) == Share(rs, a[0], k) + Owed(rs, a[1..] + b, k);
    } else {
      assert a + b == b;
    }
  }

  /** Filling a NULL entry adds the share of the new block. */
  lemma {:induction false} OwedUpdate(rs: seq<Region>, hs: seq<Hold>, i: nat, h: Hold, k: nat)
    requires i < |hs| && hs[i].addr == NULL
    ensures Owed(rs, hs[i := h], k) == Owed(rs, hs, k) + Share(rs, h, k)
  {
    var t := hs[i := h];
    if i == 0 {
      assert t[1..] == hs[1..];
    } else {
      assert t[1..] == hs[1..][i - 1 := h];
      OwedUpdate(rs, hs[1..], i - 1, h, k);
    }
  }

  /** Owed looks only at the bounds of the regions. */
  lemma {:induction false} OwedBounds(rs: seq<Region>, ts: seq<Region>, hs: seq<Hold>, k: nat)
    requires SameBounds(rs, ts)
    ensures Owed(rs, hs, k) == Owed(ts, hs, k)
  {
    if hs != [] {
      OwnerBounds(rs, ts, hs[0].addr, 0);
      OwedBounds(rs, ts, hs[1..], k);
    }
  }

  /** Owed of the first i + 1 blocks: Owed of the first i and the share of block i. */
  lemma {:induction false} OwedSnoc(rs: seq<Region>, hs: seq<Hold>, i: nat, k: nat)
    requires i < |hs|
    ensures Owed(rs, hs[..i + 1], k) == Owed(rs, hs[..i], k) + Share(rs, hs[i], k)
  {
    assert hs[..i + 1] == hs[..i] + [hs[i]];
    OwedConcat(rs, hs[..i], [hs[i]], k);
    assert [hs[i]][1..] == [];
  }

  /** Giving back the first block of a held list: it is in use, and the rest stays held. */
  lemma {:induction false} ReleaseLive(rs: seq<Region>, t: seq<Hold>)
    requires Holding(rs, t) && t != [] && t[0].addr != NULL
    ensures InUse(rs, t[0].addr, t[0].units)
    ensures Holding(Released(rs, t[0].addr, t[0].units), t[1..])
  {
    LiveFirst(t);
    FreeConsistent(rs, Live(t), t[0].addr);
  }

  /** Giving back a block in use raises the free count of its owner by its size, and no other. */
  lemma {:induction false} ReleaseFree(rs0: seq<Region>, rs: seq<Region>, h: Hold)
    requires SameBounds(rs0, rs) && h.addr != NULL && InUse(rs, h.addr, h.units)
    ensures var u := Released(rs, h.addr, h.units);
      && SameBounds(rs, u)
      && forall k :: 0 <= k < |rs| ==> u[k].attr == rs[k].attr && u[k].free == rs[k].free + HSIZE * Share(rs0, h, k)
  {
    OwnerBounds(rs0, rs, h.addr, 0);
  }

  /**
   * Giving back the i-th block of a list whose first i blocks are already
   * back: the block is NULL or in use, and afterwards the rest is still
   * held and the first i + 1 blocks are back.
   */
  lemma {:induction false} ReleaseStep(rs0: seq<Region>, rs: seq<Region>, hs: seq<Hold>, i: nat)
    requires i < |hs| && Holding(rs, hs[i..]) && Returned(rs0, rs, hs[..i])
    ensures var h := hs[i];
      && (h.addr == NULL || InUse(rs, h.addr, h.units))
      && Holding(Released(rs, h.addr, h.units), hs[i + 1..])
      && Returned(rs0, Released(rs, h.addr, h.units), hs[..i + 1])
  {
    var h := hs[i];
    var t := hs[i..];
    assert t[0] == h && t[1..] == hs[i + 1..];
    if h.addr != NULL {
      ReleaseLive(rs, t);
      assert SameBounds(rs0, rs);
      ReleaseFree(rs0, rs, h);
    }
    ReturnedSnoc(rs0, rs, Released(rs, h.addr, h.units), hs, i);
  }

  /**
   * The regions rs still owe rs0 the first i blocks of hs; once u raises
   * each free count by the i-th block's share, u owes it the first i + 1.
   */
  lemma {:induction false} ReturnedSnoc(rs0: seq<Region>, rs: seq<Region>, u: seq<Region>, hs: seq<Hold>, i: nat)
    requires i < |hs| && Returned(rs0, rs, hs[..i]) && SameBounds(rs, u)
    requires forall k :: 0 <= k < |rs| ==> u[k].attr == rs[k].attr && u[k].free == rs[k].free + HSIZE * Share(rs0, hs[i], k)
    ensures Returned(rs0, u, hs[..i + 1])
  {
    forall k | 0 <= k < |rs0|
      ensures u[k].free == rs0[k].free + HSIZE * Owed(rs0, hs[..i + 1], k)
    {
      OwedSnoc(rs0, hs, i, k);
    }
  }

  /**
   * Taking a block for the i-th entry, still NULL, of a held list: the
   * list with the new block is held, and the regions still owe rs0
   * exactly the blocks of the list.
   */
  lemma {:induction false} TakeStep(rs0: seq<Region>, rs: seq<Region>, hs: seq<Hold>, i: nat, c: nat, n: nat)
    requires Holding(rs, hs) && Returned(rs, rs0, hs) && i < |hs| && hs[i].addr == NULL
    requires c < |rs| && n >= 1 && rs[c].first < |rs[c].runs| && Fit(rs[c].runs, rs[c].first, n).Some?
    ensures var b := AllocBlock(rs, c, n);
      var t := Alloc(rs, c, n);
      Holding(t, hs[i := Hold(b, n)]) && Returned(t, rs0, hs[i := Hold(b, n)])
  {
    TakeHolding(rs, hs, i, c, n);
    TakeReturned(rs0, rs, hs, i, c, n);
  }

  /** The list with the new block in entry i is held by the regions after the take. */
  lemma {:induction false} TakeHolding(rs: seq<Region>, hs: seq<Hold>, i: nat, c: nat, n: nat)
    requires Holding(rs, hs) && i < |hs| && hs[i].addr == NULL
    requires c < |rs| && n >= 1 && Fit(rs[c].runs, rs[c].first, n).Some?
    ensures var b := AllocBlock(rs, c, n);
      b != NULL && Owner(rs, b, 0) == Some(c) && Holding(Alloc(rs, c, n), hs[i := Hold(b, n)])
  {
    var b := AllocBlock(rs, c, n);
    AllocConsistent(rs, Live(hs), c, n);
    LiveUpdate(hs, i, b, n);
    SeparateUpdate(hs, i, b, n);
  }

  /** After the take, the regions owe rs0 the list's blocks, the new one included. */
  lemma {:induction false} TakeReturned(rs0: seq<Region>, rs: seq<Region>, hs: seq<Hold>, i: nat, c: nat, n: nat)
    requires Sane(rs) && Returned(rs, rs0, hs) && i < |hs| && hs[i].addr == NULL
    requires c < |rs| && n >= 1 && Fit(rs[c].runs, rs[c].first, n).Some?
    requires AllocBlock(rs, c, n) != NULL && Owner(rs, AllocBlock(rs, c, n), 0) == Some(c)
    ensures var b := AllocBlock(rs, c, n);
      Returned(Alloc(rs, c, n), rs0, hs[i := Hold(b, n)])
  {
    var b := AllocBlock(rs, c, n);
    var t := Alloc(rs, c, n);
    assert SameBounds(rs, t);
    OwnerBounds(rs, t, b, 0);
    forall k: nat | k < |t| ensures rs0[k].free == t[k].free + HSIZE * Owed(t, hs[i := Hold(b, n)], k) {
      OwedFill(rs, t, hs, i, Hold(b, n), k);
      assert Share(t, Hold(b, n), k) == if k == c then n else 0;
      assert rs0[k].free == rs[k].free + HSIZE * Owed(rs, hs, k);
    }
  }

  /** Owed, after entry i is filled with h, in regions with the same bounds. */
  lemma {:induction false} OwedFill(rs: seq<Region>, t: seq<Region>, hs: seq<Hold>, i: nat, h: Hold, k: nat)
    requires SameBounds(rs, t) && i < |hs| && hs[i].addr == NULL
    ensures Owed(t, hs[i := h], k) == Owed(rs, hs, k) + Share(t, h, k)
  {
    OwedUpdate(t, hs, i, h, k);
    OwedBounds(rs, t, hs, k);
  }

  /**
   * A cleared MemList of num entries, just taken from region c: it holds
   * only itself, and its block is all the regions owe.
   */
  lemma {:induction false} ListTaken(rs0: seq<Region>, c: nat, num: int, entries: seq<MemEntry>)
    requires Sane(rs0) && c < |rs0|
    requires Fit(rs0[c].runs, rs0[c].first, NUnits(MemListSize(num))).Some?
    requires forall j :: 0 <= j < |entries| ==> entries[j] == MemEntry(NULL, 0)
    ensures var n := NUnits(MemListSize(num));
      var ml := AllocBlock(rs0, c, n);
      var t := Alloc(rs0, c, n);
      Holding(t, Held(ml, num, entries)) && Returned(t, rs0, Held(ml, num, entries))
  {
    var n := NUnits(MemListSize(num));
    var hs0 := Held(NULL, num, entries);
    forall k | 0 <= k < |rs0| ensures Owed(rs0, hs0, k) == 0 {
      Unheld(rs0, hs0, k);
    }
    Unheld(rs0, hs0, 0);
    TakeStep(rs0, rs0, hs0, |entries|, c, n);
    assert hs0[|entries| := Hold(AllocBlock(rs0, c, n), n)] == Held(AllocBlock(rs0, c, n), num, entries);
  }

  /** A list of NULL blocks holds nothing and is owed nothing. */
  lemma {:induction false} Unheld(rs: seq<Region>, hs: seq<Hold>, k: nat)
    requires forall i :: 0 <= i < |hs| ==> hs[i].addr == NULL
    ensures Live(hs) == map[] && Owed(rs, hs, k) == 0
  {
    if hs != [] {
      Unheld(rs, hs[1..], k);
    }
  }

  /** Two results of giving back the same blocks to the same regions have the same free counts. */
  lemma {:induction false} ReturnedSame(rs: seq<Region>, a: seq<Region>, b: seq<Region>, hs: seq<Hold>)
    requires Returned(rs, a, hs) && Returned(rs, b, hs)
    ensures Returned(a, b, [])
  {
  }

  // ---------------------------------------------------------------------
  // lib->memlist
  // ---------------------------------------------------------------------

  /** The Region a MemHeader holds. */
  ghost function State(h: MemHeader): Region
    reads h
  {
    Region(h.lower, h.upper, h.attr, h.runs, h.first, h.free)
  }

  /** The priorities of the headers, in list order. */
  function HeaderPris(hs: seq<MemHeader>): (r: seq<int>)
    reads hs
    ensures |r| == |hs| && forall k {:trigger r[k]} :: 0 <= k < |hs| ==> r[k] == hs[k].pri
  {
    seq(|hs|, k requires 0 <= k < |hs| reads hs => hs[k].pri)
  }

  /**
   * Enqueueing a header whose region is well formed and apart from every
   * other keeps the headers distinct, each holding its region.
   */
  lemma {:induction false} EnqueueLinks(hs: seq<MemHeader>, rs: seq<Region>, pos: nat, mh: MemHeader)
    requires Distinct(hs) && |rs| == |hs| && pos <= |hs| && mh !in hs
    requires forall k :: 0 <= k < |hs| ==> State(hs[k]) == rs[k]
    ensures Distinct(InsertAt(hs, pos, mh)) && |InsertAt(rs, pos, State(mh))| == |InsertAt(hs, pos, mh)|
    ensures forall k :: 0 <= k < |hs| + 1 ==> State(InsertAt(hs, pos, mh)[k]) == InsertAt(rs, pos, State(mh))[k]
  {
    InsertAtDistinct(hs, pos, mh);
    forall k | 0 <= k < |hs| + 1 ensures State(InsertAt(hs, pos, mh)[k]) == InsertAt(rs, pos, State(mh))[k] {
      InsertAtIndex(hs, pos, mh, k);
      InsertAtIndex(rs, pos, State(mh), k);
    }
  }

  /** The priorities after an insertion are the old ones with the new priority inserted. */
  lemma {:induction false} HeaderPrisInsert(hs: seq<MemHeader>, pos: nat, mh: MemHeader)
    requires pos <= |hs|
    ensures HeaderPris(InsertAt(hs, pos, mh)) == InsertAt(HeaderPris(hs), pos, mh.pri)
  {
    var a, b := HeaderPris(InsertAt(hs, pos, mh)), InsertAt(HeaderPris(hs), pos, mh.pri);
    forall k | 0 <= k < |a| ensures a[k] == b[k] {
      InsertAtIndex(hs, pos, mh, k);
      InsertAtIndex(HeaderPris(hs), pos, mh.pri, k);
    }
  }

  /**
   * A memory list whose object and headers a step left alone is still
   * valid: its validity depends on nothing else.
   */
  twostate lemma {:induction false} ValidFramed(mem: MemoryList)
    requires old(mem.Valid()) && unchanged(mem)
    requires forall h :: h in old(mem.headers) ==> unchanged(h)
    ensures mem.Valid()
  {
    forall k | 0 <= k < |mem.headers|
      ensures State(mem.headers[k]) == mem.regions[k]
    {
      var h := mem.headers[k];
      assert h in old(mem.headers);
      assert old(State(h)) == old(mem.regions[k]);
      assert old(State(h)) == State(h);
    }
  }

  /**
   * lib->memlist and the AllocVec size words. The ghost field regions is
   * the value each header holds, position by position.
   */
  class MemoryList {
    var headers: seq<MemHeader>
    ghost var regions: seq<Region>
    /** The size_t iAllocVec stores in front of each of its blocks, by block address. */
    var vecsize: map<int, size_t>

    ghost predicate Valid()
      reads this, headers
    {
      && Distinct(headers)
      && |regions| == |headers|
      && (forall k :: 0 <= k < |headers| ==> State(headers[k]) == regions[k])
      && Sane(regions)
    }

    constructor ()
      ensures Valid() && headers == [] && regions == [] && vecsize == map[]
    {
      headers := [];
      regions := [];
      vecsize := map[];
    }

    /**
     * iAddMemHeader: name the header, set its attributes and priority
     * (both stored in shorts), and enqueue it by priority.
     */
    method AddMemHeader(mh: MemHeader, name: string, attr: int, pri: int)
      requires Valid() && mh !in headers && mh.Valid()
      requires forall k :: 0 <= k < |regions| ==> mh.upper < regions[k].lower || regions[k].upper < mh.lower
      modifies this`headers, this`regions, mh`pri, mh`name, mh`attr
      ensures Valid()
      ensures mh.name == Some(name) && mh.attr == Word(Short(attr)) && mh.pri == Short(pri)
      ensures var pos := EnqueuePos(HeaderPris(old(headers)), Short(pri));
        && headers == InsertAt(old(headers), pos, mh)
        && regions == InsertAt(old(regions), pos, State(mh))
      ensures NonIncreasing(HeaderPris(old(headers))) ==> NonIncreasing(HeaderPris(headers))
    {
      mh.pri := Short(pri);
      mh.name := Some(name);
      mh.attr := Word(Short(attr));
      forall k | 0 <= k < |headers| ensures State(headers[k]) == regions[k] && headers[k].pri == old(headers[k].pri) {
        assert headers[k] != mh;
      }
      Enqueue(mh);
      ghost var pris := HeaderPris(old(headers));
      HeaderPrisInsert(old(headers), EnqueuePos(pris, mh.pri), mh);
      if NonIncreasing(pris) {
        EnqueueKeepsOrder(pris, mh.pri);
      }
    }

    /** enqnode on lib->memlist: insert the header by its priority (iEnqueue). */
    method Enqueue(mh: MemHeader)
      requires Valid() && mh !in headers && mh.Valid()
      requires forall k :: 0 <= k < |regions| ==> mh.upper < regions[k].lower || regions[k].upper < mh.lower
      modifies this`headers, this`regions
      ensures Valid()
      ensures var pos := EnqueuePos(HeaderPris(old(headers)), mh.pri);
        && headers == InsertAt(old(headers), pos, mh)
        && regions == InsertAt(old(regions), pos, State(mh))
    {
      var pos := EnqueuePos(HeaderPris(headers), mh.pri);
      EnqueueLinks(headers, regions, pos, mh);
      SaneInsert(regions, pos, State(mh));
      headers := InsertAt(headers, pos, mh);
      regions := InsertAt(regions, pos, State(mh));
    }

    /** The second half of lAllocate on the k-th header: take n units from run j. */
    method TakeIn(k: nat, j: nat, n: nat) returns (b: int)
      requires Valid() && k < |headers| && 1 <= j < |regions[k].runs| && regions[k].runs[j].units >= n >= 1
      modifies this`regions, headers[k]
      ensures Valid() && b == CarvedBlock(old(regions)[k].runs, j, n)
      ensures regions == TakeAt(old(regions), k, j, n)
    {
      var mh := headers[k];
      b := mh.Take(j, n);
      SaneUpdate(regions, k, State(mh));
      regions := regions[k := State(mh)];
      forall i | 0 <= i < |headers| && i != k ensures State(headers[i]) == regions[i] {
        var h := headers[i];
        assert h != mh;
        assert h.runs == old(h.runs) && h.first == old(h.first) && h.free == old(h.free);
      }
    }

    /**
     * The loop of iAllocMem up to its break: the first header, in list
     * order, that serves attr and on which lAllocate's search finds a run.
     * A search that finds nothing changes nothing, so the loop moves on.
     */
    method FindHeader(n: nat, attr: bv32) returns (k: nat, j: Option<nat>)
      requires Valid()
      ensures match Choose(regions, n, attr, 0)
        case None => j.None?
        case Some(i) => k == i && j == Fit(regions[i].runs, regions[i].first, n)
    {
      ghost var rs := regions;
      k := 0;
      j := None;
      while k < |headers|
        invariant 0 <= k <= |headers| && j.None?
        invariant Choose(rs, n, attr, k) == Choose(rs, n, attr, 0)
        decreases |headers| - k
      {
        var mh := headers[k];
        assert State(mh) == rs[k] && Ok(rs[k]);
        if Serves(mh.attr, attr) {
          j := mh.Search(n);
          if j.Some? {
            assert Choose(rs, n, attr, k) == Some(k);
            return;
          }
        }
        k := k + 1;
      }
    }

    /**
     * iAllocMem: take the block from the first header, in list order, that
     * serves attr and has a run of the size; cleared says whether the block
     * is then zero-filled (MEMF_CLEAR).
     */
    method AllocMem(numbytes: size_t, attr: bv32) returns (p: int, cleared: bool)
      requires Valid()
      modifies this`regions, headers
      ensures Valid() && headers == old(headers)
      ensures var rs := old(regions);
        var n := NUnits(numbytes);
        match Choose(rs, n, attr, 0)
        case None => p == NULL && regions == rs
        case Some(i) => p == AllocBlock(rs, i, n) && regions == Alloc(rs, i, n)
      ensures p != NULL <==> Choose(old(regions), NUnits(numbytes), attr, 0).Some?
      ensures cleared <==> p != NULL && attr & MEMF_CLEAR != 0
    {
      var n := NUnits(numbytes);
      var k, j := FindHeader(n, attr);
      if j.None? {
        return NULL, false;
      }
      AllocBlockNotNull(regions, k, n);
      p := TakeIn(k, j.value, n);
      cleared := attr & MEMF_CLEAR != 0;
    }

    /** The loop of iFreeMem up to its break: the first header whose bounds contain ptr. */
    method FindOwner(ptr: int) returns (k: Option<nat>)
      requires Valid()
      ensures k == Owner(regions, ptr, 0)
    {
      ghost var rs := regions;
      var i := 0;
      while i < |headers|
        invariant 0 <= i <= |headers|
        invariant Owner(rs, ptr, i) == Owner(rs, ptr, 0)
        decreases |headers| - i
      {
        var mh := headers[i];
        assert State(mh) == rs[i];
        if mh.lower <= ptr && ptr <= mh.upper {
          return Some(i);
        }
        i := i + 1;
      }
      return None;
    }

    /** lDeallocate on the k-th header. */
    method GiveBackIn(k: nat, block: int, nbytes: size_t)
      requires Valid() && k < |headers|
      requires Releasable(regions[k].runs, block, NUnits(nbytes))
      requires block + NUnits(nbytes) * HSIZE <= regions[k].upper
      modifies this`regions, headers[k]
      ensures Valid() && regions == Free(old(regions), k, block, NUnits(nbytes))
    {
      var mh := headers[k];
      mh.Deallocate(block, nbytes);
      FreeAt(regions, k, block, NUnits(nbytes), State(mh));
      SaneUpdate(regions, k, State(mh));
      regions := regions[k := State(mh)];
    }

    /**
     * iFreeMem: give the block back to the first header whose bounds
     * contain it; NULL is ignored, and a pointer no header contains is a
     * dead end (lAlert with AT_DeadEnd).
     */
    method FreeMem(ptr: int, numbytes: size_t) returns (deadend: bool)
      requires Valid()
      requires Returnable(regions, ptr, NUnits(numbytes))
      modifies this`regions, headers
      ensures Valid() && headers == old(headers)
      ensures deadend <==> ptr != NULL && Owner(old(regions), ptr, 0).None?
      ensures regions == Released(old(regions), ptr, NUnits(numbytes))
    {
      if ptr == NULL {
        return false;
      }
      var k := FindOwner(ptr);
      if k.None? {
        return true;
      }
      GiveBackIn(k.value, ptr, numbytes);
      deadend := false;
    }

    /** iAvailMem: the free bytes of the headers that serve attr, added up in size_t. */
    method AvailMem(attr: bv32) returns (sum: size_t)
      requires Valid()
      ensures sum == Avail(regions, attr) % WORD
    {
      ghost var rs := regions;
      sum := 0;
      var i := 0;
      while i < |headers|
        invariant 0 <= i <= |headers|
        invariant sum == Avail(rs[..i], attr) % WORD
        decreases |headers| - i
      {
        var mh := headers[i];
        assert State(mh) == rs[i];
        AvailStep(rs, i, attr, sum);
        if Serves(mh.attr, attr) {
          sum := (sum + mh.free) % WORD;
        }
        i := i + 1;
      }
      assert rs[..i] == rs;
    }

    /**
     * iAllocVec: ask AllocMem for the request plus a size word, store the
     * size in that word and hand out the address after it.  A request whose
     * size word does not fit in size_t is refused.
     */
    method AllocVec(numbytes: size_t, attr: bv32) returns (p: int)
      requires Valid()
      modifies this`regions, this`vecsize, headers
      ensures Valid() && headers == old(headers)
      ensures match VecBytes(numbytes)
        case None => p == NULL && regions == old(regions) && vecsize == old(vecsize)
        case Some(m) =>
          var n := NUnits(m);
          match Choose(old(regions), n, attr, 0)
          case None => p == NULL && regions == old(regions) && vecsize == old(vecsize)
          case Some(i) =>
            var b := AllocBlock(old(regions), i, n);
            && p == b + ALIGN && regions == Alloc(old(regions), i, n)
            && vecsize == old(vecsize)[b := m]
    {
      var m := VecBytes(numbytes);
      if m.None? {
        return NULL;
      }
      var b, _ := AllocMem(m.value, attr);
      if b == NULL {
        return NULL;
      }
      label Taken:
      vecsize := vecsize[b := m.value];
      VecKept@Taken();
      p := b + ALIGN;
    }

    /** Recording a size word leaves the headers and their regions, hence Valid, as they were. */
    twostate lemma {:induction false} VecKept()
      requires old(Valid()) && headers == old(headers) && regions == old(regions)
      requires forall h :: h in headers ==> unchanged(h)
      ensures Valid()
    {
      forall k | 0 <= k < |headers| ensures State(headers[k]) == regions[k] {
        assert headers[k] in headers;
      }
    }

    /** iFreeVec: free the block in front of ptr by the size stored in its size word. */
    method FreeVec(ptr: int) returns (deadend: bool)
      requires Valid()
      requires ptr != NULL ==> ptr - ALIGN in vecsize
      requires ptr != NULL ==> var b := ptr - ALIGN;
        b == NULL || Owner(regions, b, 0).None? || InUse(regions, b, NUnits(vecsize[b]))
      modifies this`regions, headers
      ensures Valid() && headers == old(headers)
      ensures ptr == NULL ==> !deadend && regions == old(regions)
      ensures ptr != NULL ==> var b := ptr - ALIGN;
        && (deadend <==> b != NULL && Owner(old(regions), b, 0).None?)
        && regions == Released(old(regions), b, NUnits(old(vecsize)[b]))
    {
      if ptr == NULL {
        return false;
      }
      var b := ptr - ALIGN;
      deadend := FreeMem(b, vecsize[b]);
    }

    /**
     * iFreeEntry: give back every entry of the list, then the list itself.
     * Entries left NULL are ignored by FreeMem.
     */
    method FreeEntry(ml: int, num: int, entries: seq<MemEntry>)
      requires Valid()
      requires ml != NULL ==> |entries| == (if num < 0 then 0 else num) && Holding(regions, Held(ml, num, entries))
      modifies this`regions, headers
      ensures Valid() && headers == old(headers)
      ensures ml == NULL ==> regions == old(regions)
      ensures ml != NULL ==> Returned(old(regions), regions, Held(ml, num, entries))
    {
      if ml == NULL {
        return;
      }
      ghost var hs := Held(ml, num, entries);
      FreeEntries(num, entries, hs);
      FreeList(ml, num, hs, old(regions));
    }

    /** The last step of iFreeEntry: give back the MemList itself, the last block of hs. */
    method FreeList(ml: int, num: int, ghost hs: seq<Hold>, ghost rs0: seq<Region>)
      requires Valid() && |hs| >= 1 && hs[|hs| - 1] == Hold(ml, NUnits(MemListSize(num)))
      requires Holding(regions, hs[|hs| - 1..]) && Returned(rs0, regions, hs[..|hs| - 1])
      modifies this`regions, headers
      ensures Valid() && headers == old(headers)
      ensures Returned(rs0, regions, hs)
    {
      ghost var i := |hs| - 1;
      ReleaseStep(rs0, regions, hs, i);
      var _ := FreeMem(ml, MemListSize(num));
      assert hs[..i + 1] == hs;
    }

    /** The loop of iFreeEntry: give back the num entries, the first |entries| blocks of hs. */
    method FreeEntries(num: int, entries: seq<MemEntry>, ghost hs: seq<Hold>)
      requires Valid() && |entries| == (if num < 0 then 0 else num) && |hs| > |entries|
      requires forall i :: 0 <= i < |entries| ==> hs[i] == Hold(entries[i].ptr, NUnits(entries[i].size))
      requires Holding(regions, hs)
      modifies this`regions, headers
      ensures Valid() && headers == old(headers)
      ensures Holding(regions, hs[|entries|..]) && Returned(old(regions), regions, hs[..|entries|])
    {
      var i := 0;
      assert hs[i..] == hs;
      while i < num
        invariant 0 <= i <= |entries|
        invariant Valid() && headers == old(headers)
        invariant Holding(regions, hs[i..]) && Returned(old(regions), regions, hs[..i])
        decreases num - i
      {
        ReleaseStep(old(regions), regions, hs, i);
        var _ := FreeMem(entries[i].ptr, entries[i].size);
        i := i + 1;
      }
    }

    /**
     * iAllocEntry: allocate a cleared MemList of numentries entries, then
     * one block per request in order; when a request cannot be met, every
     * block taken so far is given back and the result is NULL.
     */
    method AllocEntry(reqs: seq<MemRequest>, numentries: int) returns (ml: int, entries: seq<MemEntry>)
      requires Valid() && numentries <= |reqs|
      modifies this`regions, headers
      ensures Valid() && headers == old(headers)
      ensures ml == NULL ==> Returned(old(regions), regions, [])
      ensures ml != NULL ==>
        && |entries| == (if numentries < 0 then 0 else numentries)
        && (forall i :: 0 <= i < |entries| ==> entries[i].ptr != NULL && entries[i].size == reqs[i].size)
        && Holding(regions, Held(ml, numentries, entries))
        && Returned(regions, old(regions), Held(ml, numentries, entries))
    {
      ghost var rs0 := regions;
      var n := NUnits(MemListSize(numentries));
      var cleared;
      ml, cleared := AllocMem(MemListSize(numentries), MEMF_CLEAR | MEMF_ANY);
      if ml == NULL {
        return NULL, [];
      }
      entries := seq(if numentries < 0 then 0 else numentries, _ => MemEntry(NULL, 0));
      ListTaken(rs0, Choose(rs0, n, MEMF_CLEAR | MEMF_ANY, 0).value, numentries, entries);
      ml, entries := FillEntries(reqs, numentries, ml, entries, rs0);
    }

    /** The request loop of iAllocEntry, on a list block ml already taken from rs0. */
    method FillEntries(reqs: seq<MemRequest>, num: int, ml: int, entries0: seq<MemEntry>, ghost rs0: seq<Region>)
      returns (r: int, entries: seq<MemEntry>)
      requires Valid() && num <= |reqs| && ml != NULL
      requires |entries0| == (if num < 0 then 0 else num)
      requires forall j :: 0 <= j < |entries0| ==> entries0[j] == MemEntry(NULL, 0)
      requires Holding(regions, Held(ml, num, entries0)) && Returned(regions, rs0, Held(ml, num, entries0))
      modifies this`regions, headers
      ensures Valid() && headers == old(headers)
      ensures r == NULL ==> Returned(rs0, regions, [])
      ensures r != NULL ==>
        && r == ml && |entries| == |entries0|
        && (forall i :: 0 <= i < |entries| ==> entries[i].ptr != NULL && entries[i].size == reqs[i].size)
        && Holding(regions, Held(ml, num, entries))
        && Returned(regions, rs0, Held(ml, num, entries))
    {
      entries := entries0;
      var i := 0;
      while i < num
        invariant 0 <= i <= |entries| == |entries0|
        invariant Valid() && headers == old(headers)
        invariant forall j :: 0 <= j < i ==> entries[j].ptr != NULL && entries[j].size == reqs[j].size
        invariant forall j :: i <= j < |entries| ==> entries[j] == MemEntry(NULL, 0)
        invariant Holding(regions, Held(ml, num, entries)) && Returned(regions, rs0, Held(ml, num, entries))
        decreases num - i
      {
        var ok;
        ok, entries := FillOne(reqs, num, ml, entries, i, rs0);
        if !ok {
          return NULL, [];
        }
        i := i + 1;
      }
      return ml, entries;
    }

    /**
     * One round of iAllocEntry's request loop: take a block for request i
     * into entry i, or, when AllocMem fails, give the whole list back.
     */
    method FillOne(reqs: seq<MemRequest>, num: int, ml: int, entries: seq<MemEntry>, i: nat, ghost rs0: seq<Region>)
      returns (ok: bool, filled: seq<MemEntry>)
      requires Valid() && ml != NULL && i < |entries| && i < |reqs|
      requires |entries| == (if num < 0 then 0 else num) && entries[i] == MemEntry(NULL, 0)
      requires Holding(regions, Held(ml, num, entries)) && Returned(regions, rs0, Held(ml, num, entries))
      modifies this`regions, headers
      ensures Valid() && headers == old(headers)
      ensures !ok ==> Returned(rs0, regions, [])
      ensures ok ==>
        && |filled| == |entries| && filled == entries[i := MemEntry(filled[i].ptr, reqs[i].size)]
        && filled[i].ptr != NULL
        && Holding(regions, Held(ml, num, filled)) && Returned(regions, rs0, Held(ml, num, filled))
    {
      ghost var rs := regions;
      ghost var hs := Held(ml, num, entries);
      var rlen := reqs[i].size;
      var addr, _ := AllocMem(rlen, reqs[i].attr);
      if addr == NULL {
        Unwind(ml, num, entries, rs0);
        return false, entries;
      }
      ghost var n := NUnits(rlen);
      ghost var c := Choose(rs, n, reqs[i].attr, 0).value;
      TakeStep(rs0, rs, hs, i, c, n);
      filled := entries[i := MemEntry(addr, rlen)];
      HeldUpdate(ml, num, entries, i, MemEntry(addr, rlen));
      ok := true;
    }

    /** A request of iAllocEntry that cannot be met: the list and its blocks go back, leaving rs0. */
    method Unwind(ml: int, num: int, entries: seq<MemEntry>, ghost rs0: seq<Region>)
      requires Valid() && ml != NULL && |entries| == (if num < 0 then 0 else num)
      requires Holding(regions, Held(ml, num, entries)) && Returned(regions, rs0, Held(ml, num, entries))
      modifies this`regions, headers
      ensures Valid() && headers == old(headers)
      ensures Returned(rs0, regions, [])
    {
      ghost var rs := regions;
      FreeEntry(ml, num, entries);
      ReturnedSame(rs, rs0, regions, Held(ml, num, entries));
    }
  }
}
