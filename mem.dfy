/**
 * The exec storage allocator for one memory region (mod/exec/mem.c): the
 * K&R allocator of section 8.7 of Kernighan & Ritchie, "The C Programming
 * Language", with a next-fit search, an address-ordered circular free list
 * with coalescing, and a zero-unit sentinel chunk that is never merged.
 *
 * Addresses are byte addresses on a 32-bit target.  A free chunk is a Run:
 * the address of its Header and its size in Header units.  The circular
 * free list of a MemHeader is the sequence of its runs in ascending address
 * order, starting with the sentinel; mh->first is an index into it.
 */
module Mem {
  import opened Wrappers
  import opened Lists

  /** size_t and uintptr_t of the 32-bit targets. */
  const WORD: int := 0x1_0000_0000
  type size_t = x: int | 0 <= x < WORD

  /** sizeof (MemAlign): a long long or double. */
  const ALIGN: nat := 8
  /** sizeof (Header): a pointer and a size_t, padded to MemAlign. */
  const HSIZE: nat := 8
  /** offsetof (MemHeaderX, mc): a 36-byte MemHeader padded to MemAlign. */
  const MC_OFFSET: nat := 40
  /** sizeof (MemHeaderX): the MemHeader and three Header chunks. */
  const MHX_SIZE: nat := 64
  /** The smallest region iInitMemHeader accepts. */
  const MINSZ: nat := 2 * (ALIGN - 1) + MHX_SIZE

  // Allocation attributes (mod/exec/pub/exec/memory.h)
  const MEMF_ANY: bv32 := 0x0000
  const MEMF_DMA: bv32 := 0x0001
  const MEMF_EXEC: bv32 := 0x0002
  const MEMF_CLEAR: bv32 := 0x4000
  const MEMF_TYPE: bv32 := 0x00FF

  /** The 32-bit two's-complement pattern of an int: what C's & operates on. */
  function Word(x: int): bv32
  {
    (x % 0x1_0000_0000) as bv32
  }

  /** The value an int keeps when stored in a short (modulo 2^16, as every target compiler does). */
  function Short(x: int): (s: int)
    ensures -0x8000 <= s < 0x8000 && (x - s) % 0x10000 == 0
    ensures -0x8000 <= x < 0x8000 ==> s == x
  {
    (x + 0x8000) % 0x10000 - 0x8000
  }

  /**
   * alignup: (a + mask) & ~mask in uintptr_t, with mask = align - 1.  The C
   * function takes the alignment as an argument; its only caller passes
   * sizeof (MemAlign), so the model fixes it.  For this power of two,
   * x & ~mask is x with its low three bits cleared, x - x % ALIGN; the
   * addition wraps in uintptr_t.
   */
  function AlignUp(a: size_t): (r: size_t)
    ensures a + ALIGN - 1 < WORD ==> r % ALIGN == 0 && a <= r < a + ALIGN
  {
    var x := (a + ALIGN - 1) % WORD;
    x - x % ALIGN
  }

  /** aligndown: a & ~mask, with the same fixed alignment. */
  function AlignDown(a: size_t): (r: size_t)
    ensures r % ALIGN == 0 && r <= a < r + ALIGN
  {
    a - a % ALIGN
  }

  /**
   * NUNITS as the C code computes it: numbytes + sizeof (Header) - 1 is
   * evaluated in size_t and wraps for numbytes close to SIZE_MAX.
   */
  function NUnitsAsWritten(numbytes: size_t): size_t
  {
    var n := if numbytes == 0 then 1 else numbytes;
    ((n + HSIZE - 1) % WORD) / HSIZE
  }

  /** NUNITS as intended: the number of Header units that cover max(numbytes, 1) bytes. */
  function NUnits(numbytes: size_t): (u: nat)
    ensures u >= 1
  {
    if numbytes == 0 then 1 else (numbytes - 1) / HSIZE + 1
  }

  /** NUnits is the least number of units that covers the request. */
  lemma {:induction false} NUnitsIsLeastCover(numbytes: size_t)
    ensures var n := if numbytes == 0 then 1 else numbytes;
      NUnits(numbytes) * HSIZE >= n && (NUnits(numbytes) - 1) * HSIZE < n
  {
  }

  /** Away from the top of size_t the two agree. */
  lemma {:induction false} NUnitsAgree(numbytes: size_t)
    requires numbytes + HSIZE - 1 < WORD
    ensures NUnitsAsWritten(numbytes) == NUnits(numbytes)
  {
  }

  /** At the top of size_t the C computation yields zero units. */
  lemma {:induction false} NUnitsWrapsToZero()
    ensures NUnitsAsWritten(WORD - 1) == 0
    ensures NUnits(WORD - 1) == WORD / HSIZE
  {
  }

  // ---------------------------------------------------------------------
  // Free runs
  // ---------------------------------------------------------------------

  /** A free chunk: the address of its Header and its length in Header units. */
  datatype Run = Run(addr: int, units: nat)

  function End(r: Run): int
  {
    r.addr + r.units * HSIZE
  }

  /** The number of free units in a free list. */
  function Units(runs: seq<Run>): nat
  {
    if runs == [] then 0 else runs[0].units + Units(runs[1..])
  }

  lemma {:induction false} UnitsAppend(a: seq<Run>, b: seq<Run>)
    ensures Units(a + b) == Units(a) + Units(b)
  {
    if a == [] {
      assert a + b == b;
    } else {
      assert (a + b)[1..] == a[1..] + b;
      UnitsAppend(a[1..], b);
    }
  }

  lemma {:induction false} UnitsSingle(r: Run)
    ensures Units([r]) == r.units
  {
    assert [r][1..] == [];
  }

  /** Address a lies in a free run. */
  predicate IsFree(runs: seq<Run>, a: int)
  {
    exists i :: 0 <= i < |runs| && runs[i].addr <= a < End(runs[i])
  }

  /**
   * The shape of a free list: the zero-unit sentinel first, every other run
   * non-empty, ascending addresses, and no two runs touching (the
   * coalescing of Deallocate).
   */
  predicate WellFormed(runs: seq<Run>)
  {
    && |runs| >= 1
    && runs[0].units == 0
    && (forall i :: 1 <= i < |runs| ==> runs[i].units >= 1)
    && (forall i :: 0 <= i < |runs| - 1 ==> End(runs[i]) < runs[i + 1].addr)
  }

  lemma {:induction false} Ascending(runs: seq<Run>, i: nat, j: nat)
    requires WellFormed(runs) && i < j < |runs|
    ensures End(runs[i]) < runs[j].addr
    decreases j - i
  {
    if i + 1 < j {
      Ascending(runs, i + 1, j);
    }
  }

  /** In a well-formed list, a free address lies in exactly one run. */
  lemma {:induction false} OnlyRun(runs: seq<Run>, i: nat, a: int)
    requires WellFormed(runs) && i < |runs| && runs[i].addr <= a < End(runs[i])
    ensures forall k :: 0 <= k < |runs| && k != i ==> !(runs[k].addr <= a < End(runs[k]))
  {
    forall k | 0 <= k < |runs| && k != i
      ensures !(runs[k].addr <= a < End(runs[k]))
    {
      if k < i {
        Ascending(runs, k, i);
      } else {
        Ascending(runs, i, k);
      }
    }
  }

  // ---------------------------------------------------------------------
  // The next-fit search of iAllocate
  // ---------------------------------------------------------------------

  /** The run after run i in the circular list: p->s.ptr. */
  function Next(count: nat, i: nat): (r: nat)
    requires i < count
    ensures r < count
  {
    if i + 1 == count then 0 else i + 1
  }

  /** The run visited at step k of the circular walk that starts after first. */
  function Step(count: nat, first: nat, k: nat): (r: nat)
    requires first < count && k <= count
    ensures r < count
  {
    if first + k < count then first + k else first + k - count
  }

  /**
   * The first step k' in k..|runs| whose run has at least n units, or None:
   * the walk ends at step |runs|, which is the run `first` itself.
   */
  function FitStep(runs: seq<Run>, first: nat, n: nat, k: nat): (r: Option<nat>)
    requires first < |runs| && 1 <= k
    ensures r.Some? ==> k <= r.value <= |runs| && runs[Step(|runs|, first, r.value)].units >= n
    ensures r.Some? ==> forall m :: k <= m < r.value ==> runs[Step(|runs|, first, m)].units < n
    ensures r.None? ==> forall m :: k <= m <= |runs| ==> runs[Step(|runs|, first, m)].units < n
    decreases |runs| + 1 - k
  {
    if k > |runs| then None
    else if runs[Step(|runs|, first, k)].units >= n then Some(k)
    else FitStep(runs, first, n, k + 1)
  }

  /** The step at which the walk from first reaches run i. */
  function StepTo(count: nat, first: nat, i: nat): (k: nat)
    requires first < count && i < count
    ensures 1 <= k <= count && Step(count, first, k) == i
  {
    if first < i then i - first else i + count - first
  }

  /** The index at which iAllocate's search succeeds, or None. */
  function Fit(runs: seq<Run>, first: nat, n: nat): (r: Option<nat>)
    requires first < |runs|
    ensures r.Some? ==> r.value < |runs| && runs[r.value].units >= n
    ensures r.None? <==> forall i :: 0 <= i < |runs| ==> runs[i].units < n
  {
    var s := FitStep(runs, first, n, 1);
    if s.None? then
      assert forall i :: 0 <= i < |runs| ==> runs[i].units < n by {
        forall i | 0 <= i < |runs| ensures runs[i].units < n {
          var k := StepTo(|runs|, first, i);
        }
      }
      None
    else
      Some(Step(|runs|, first, s.value))
  }

  /** The free list after n units are taken from run j. */
  function Carve(runs: seq<Run>, j: nat, n: nat): seq<Run>
    requires j < |runs| && runs[j].units >= n
  {
    if runs[j].units == n then RemoveAt(runs, j)
    else runs[j := Run(runs[j].addr, runs[j].units - n)]
  }

  /** The block handed out: the high end of run j. */
  function CarvedBlock(runs: seq<Run>, j: nat, n: nat): int
    requires j < |runs| && runs[j].units >= n
  {
    runs[j].addr + (runs[j].units - n) * HSIZE
  }

  lemma {:induction false} UnitsAt(runs: seq<Run>, j: nat)
    requires j < |runs|
    ensures Units(runs) == Units(runs[..j]) + runs[j].units + Units(runs[j + 1..])
  {
    assert runs == runs[..j] + ([runs[j]] + runs[j + 1..]);
    UnitsAppend(runs[..j], [runs[j]] + runs[j + 1..]);
    UnitsAppend([runs[j]], runs[j + 1..]);
    UnitsSingle(runs[j]);
  }

  lemma {:induction false} CarveUnits(runs: seq<Run>, j: nat, n: nat)
    requires j < |runs| && runs[j].units >= n
    ensures Units(Carve(runs, j, n)) + n == Units(runs)
  {
    UnitsAt(runs, j);
    var c := Carve(runs, j, n);
    if runs[j].units == n {
      assert c == runs[..j] + runs[j + 1..];
      UnitsAppend(runs[..j], runs[j + 1..]);
    } else {
      UnitsAt(c, j);
      assert c[..j] == runs[..j] && c[j + 1..] == runs[j + 1..];
    }
  }

  /** Taking a block keeps a region's free list inside the region. */
  lemma {:induction false} CarveInside(runs: seq<Run>, j: nat, n: nat, lower: int, upper: int)
    requires WellFormed(runs) && j < |runs| && runs[j].units >= n >= 1
    requires lower <= runs[0].addr && End(runs[|runs| - 1]) <= upper
    ensures var c := Carve(runs, j, n);
      |c| >= 1 && lower <= c[0].addr && End(c[|c| - 1]) <= upper
  {
    CarveWellFormed(runs, j, n);
    var c := Carve(runs, j, n);
    if runs[j].units == n && j == |runs| - 1 {
      assert c[|c| - 1] == runs[j - 1];
      Ascending(runs, j - 1, j);
    }
  }

  /** Taking a block never touches the sentinel and keeps the list well formed. */
  lemma {:induction false} CarveWellFormed(runs: seq<Run>, j: nat, n: nat)
    requires WellFormed(runs) && j < |runs| && runs[j].units >= n >= 1
    ensures j >= 1
    ensures WellFormed(Carve(runs, j, n))
    ensures Carve(runs, j, n)[0] == runs[0]
  {
    var c := Carve(runs, j, n);
    if runs[j].units == n {
      forall i | 0 <= i < |c| - 1 ensures End(c[i]) < c[i + 1].addr {
        if i + 1 < j {
        } else if i + 1 == j {
          Ascending(runs, i, j + 1);
        }
      }
    }
  }

  /**
   * The block is the top n units of run j; afterwards exactly the addresses
   * of the block have left the free list.
   */
  lemma {:induction false} CarveFree(runs: seq<Run>, j: nat, n: nat, a: int)
    requires WellFormed(runs) && j < |runs| && runs[j].units >= n >= 1
    ensures var b := CarvedBlock(runs, j, n);
      runs[j].addr <= b && b + n * HSIZE == End(runs[j])
    ensures var b := CarvedBlock(runs, j, n);
      IsFree(Carve(runs, j, n), a) <==> IsFree(runs, a) && !(b <= a < b + n * HSIZE)
  {
    if IsFree(runs, a) {
      CarveKeepsFree(runs, j, n, a);
    }
    if IsFree(Carve(runs, j, n), a) {
      CarveAddsNoFree(runs, j, n, a);
    }
  }

  /** A free address outside the block stays free, and the block itself leaves the free list. */
  lemma {:induction false} CarveKeepsFree(runs: seq<Run>, j: nat, n: nat, a: int)
    requires WellFormed(runs) && j < |runs| && runs[j].units >= n >= 1 && IsFree(runs, a)
    ensures var b := CarvedBlock(runs, j, n);
      IsFree(Carve(runs, j, n), a) <==> !(b <= a < b + n * HSIZE)
  {
    var b := CarvedBlock(runs, j, n);
    var c := Carve(runs, j, n);
    var i :| 0 <= i < |runs| && runs[i].addr <= a < End(runs[i]);
    OnlyRun(runs, i, a);
    if i != j {
      var k := if runs[j].units == n && i > j then i - 1 else i;
      assert c[k] == runs[i];
      assert IsFree(c, a);
    } else if a < b {
      assert c[j].addr <= a < End(c[j]);
    } else if IsFree(c, a) {
      CarveAddsNoFree(runs, j, n, a);
    }
  }

  /** Every address free after the carve was free before and lies outside the block. */
  lemma {:induction false} CarveAddsNoFree(runs: seq<Run>, j: nat, n: nat, a: int)
    requires WellFormed(runs) && j < |runs| && runs[j].units >= n >= 1 && IsFree(Carve(runs, j, n), a)
    ensures var b := CarvedBlock(runs, j, n);
      IsFree(runs, a) && !(b <= a < b + n * HSIZE)
  {
    var c := Carve(runs, j, n);
    var k :| 0 <= k < |c| && c[k].addr <= a < End(c[k]);
    if runs[j].units == n {
      var i := if k < j then k else k + 1;
      assert c[k] == runs[i];
      OnlyRun(runs, i, a);
    } else if k != j {
      assert c[k] == runs[k];
      OnlyRun(runs, k, a);
    } else {
      assert runs[j].addr <= a < End(runs[j]);
    }
  }

  // ---------------------------------------------------------------------
  // The insertion and coalescing of iDeallocate
  // ---------------------------------------------------------------------

  /**
   * What Deallocate demands of a block of n units at bp: it lies above the
   * sentinel and overlaps no free run (it is not already free).
   */
  predicate Releasable(runs: seq<Run>, bp: int, n: nat)
  {
    && |runs| >= 1
    && runs[0].addr < bp
    && n >= 1
    && forall i :: 0 <= i < |runs| ==> End(runs[i]) <= bp || bp + n * HSIZE <= runs[i].addr
  }

  /** The last run whose address is below bp: the p at which iDeallocate's walk stops. */
  function PredIndex(runs: seq<Run>, bp: int): (t: nat)
    requires |runs| >= 1 && runs[0].addr < bp
    ensures t < |runs| && runs[t].addr < bp
    ensures t + 1 < |runs| ==> bp <= runs[t + 1].addr
    decreases |runs|
  {
    if |runs| == 1 || bp <= runs[1].addr then 0
    else 1 + PredIndex(runs[1..], bp)
  }

  /** Whether the freed block joins its successor run. */
  predicate JoinsSucc(runs: seq<Run>, t: nat, bp: int, n: nat)
    requires t < |runs|
  {
    t + 1 < |runs| && bp + n * HSIZE == runs[t + 1].addr
  }

  /** The freed block, after it has absorbed its successor if they touch. */
  function Block(runs: seq<Run>, t: nat, bp: int, n: nat): Run
    requires t < |runs|
  {
    if JoinsSucc(runs, t, bp, n) then Run(bp, n + runs[t + 1].units) else Run(bp, n)
  }

  /** The runs after the predecessor that the freed block leaves in place. */
  function After(runs: seq<Run>, t: nat, bp: int, n: nat): seq<Run>
    requires t < |runs|
  {
    if JoinsSucc(runs, t, bp, n) then runs[t + 2..] else runs[t + 1..]
  }

  /** The free list after a block of n units at bp is linked in after run t. */
  function FreedAt(runs: seq<Run>, t: nat, bp: int, n: nat): seq<Run>
    requires t < |runs|
  {
    var blk := Block(runs, t, bp, n);
    if End(runs[t]) == bp then
      runs[..t] + [Run(runs[t].addr, runs[t].units + blk.units)] + After(runs, t, bp, n)
    else
      runs[..t + 1] + [blk] + After(runs, t, bp, n)
  }

  /** The free list after a block of n units at bp is given back. */
  function Freed(runs: seq<Run>, bp: int, n: nat): seq<Run>
    requires |runs| >= 1 && runs[0].addr < bp
  {
    FreedAt(runs, PredIndex(runs, bp), bp, n)
  }

  lemma {:induction false} FreedUnits(runs: seq<Run>, bp: int, n: nat)
    requires Releasable(runs, bp, n)
    ensures Units(Freed(runs, bp, n)) == Units(runs) + n
  {
    var t := PredIndex(runs, bp);
    UnitsAt(runs, t);
    AfterUnits(runs, t, bp, n);
    FreedAtUnits(runs, t, bp, n);
  }

  /** The runs after t: the block absorbs the successor's units when they touch. */
  lemma {:induction false} AfterUnits(runs: seq<Run>, t: nat, bp: int, n: nat)
    requires t < |runs|
    ensures Units(runs[t + 1..]) + n == Block(runs, t, bp, n).units + Units(After(runs, t, bp, n))
  {
    if JoinsSucc(runs, t, bp, n) {
      var rest := After(runs, t, bp, n);
      assert runs[t + 1..] == [runs[t + 1]] + rest;
      UnitsAppend([runs[t + 1]], rest);
      UnitsSingle(runs[t + 1]);
    }
  }

  /** The units of the list after the block is linked in after run t, merged or not. */
  lemma {:induction false} FreedAtUnits(runs: seq<Run>, t: nat, bp: int, n: nat)
    requires t < |runs|
    ensures Units(FreedAt(runs, t, bp, n))
      == Units(runs[..t]) + runs[t].units + Block(runs, t, bp, n).units + Units(After(runs, t, bp, n))
  {
    var blk := Block(runs, t, bp, n);
    var rest := After(runs, t, bp, n);
    if End(runs[t]) == bp {
      var m := Run(runs[t].addr, runs[t].units + blk.units);
      UnitsAppend(runs[..t] + [m], rest);
      UnitsAppend(runs[..t], [m]);
      UnitsSingle(m);
    } else {
      assert runs[..t + 1] == runs[..t] + [runs[t]];
      UnitsAppend(runs[..t + 1] + [blk], rest);
      UnitsAppend(runs[..t + 1], [blk]);
      UnitsAppend(runs[..t], [runs[t]]);
      UnitsSingle(runs[t]);
      UnitsSingle(blk);
    }
  }

  /** The successor of the predecessor lies at or past the end of the block. */
  lemma {:induction false} SuccAbove(runs: seq<Run>, bp: int, n: nat)
    requires WellFormed(runs) && Releasable(runs, bp, n)
    ensures var t := PredIndex(runs, bp);
      End(runs[t]) <= bp && (t + 1 < |runs| ==> bp + n * HSIZE <= runs[t + 1].addr)
  {
    var t := PredIndex(runs, bp);
    if t + 1 < |runs| {
      assert runs[t + 1].units >= 1;
    }
  }

  /** Consecutive runs do not touch. */
  predicate Chained(s: seq<Run>)
  {
    forall i :: 0 <= i < |s| - 1 ==> End(s[i]) < s[i + 1].addr
  }

  lemma {:induction false} ChainJoin(l: seq<Run>, m: Run, r: seq<Run>)
    requires Chained(l) && Chained(r)
    requires l != [] ==> End(l[|l| - 1]) < m.addr
    requires r != [] ==> End(m) < r[0].addr
    ensures Chained(l + [m] + r)
  {
    var f := l + [m] + r;
    forall i | 0 <= i < |f| - 1 ensures End(f[i]) < f[i + 1].addr {
      if i < |l| - 1 {
        assert f[i] == l[i] && f[i + 1] == l[i + 1];
      } else if i == |l| - 1 {
        assert f[i] == l[i] && f[i + 1] == m;
      } else if i == |l| {
        assert f[i] == m && f[i + 1] == r[0];
      } else {
        assert f[i] == r[i - |l| - 1] && f[i + 1] == r[i - |l|];
      }
    }
  }

  /** Every run but the first is non-empty. */
  predicate NonEmptyRuns(s: seq<Run>)
  {
    forall i :: 1 <= i < |s| ==> s[i].units >= 1
  }

  lemma {:induction false} WellFormedJoin(l: seq<Run>, m: Run, r: seq<Run>)
    requires |l| >= 1 && l[0].units == 0 && NonEmptyRuns(l) && Chained(l)
    requires m.units >= 1 && Chained(r) && forall i :: 0 <= i < |r| ==> r[i].units >= 1
    requires End(l[|l| - 1]) < m.addr
    requires r != [] ==> End(m) < r[0].addr
    ensures WellFormed(l + [m] + r) && (l + [m] + r)[0] == l[0]
  {
    ChainJoin(l, m, r);
    var f := l + [m] + r;
    forall i | 1 <= i < |f| ensures f[i].units >= 1 {
      if i < |l| {
        assert f[i] == l[i];
      } else if i > |l| {
        assert f[i] == r[i - |l| - 1];
      }
    }
  }

  /** Giving back a releasable block keeps the free list well formed. */
  lemma {:induction false} FreedWellFormed(runs: seq<Run>, bp: int, n: nat)
    requires WellFormed(runs) && Releasable(runs, bp, n)
    ensures WellFormed(Freed(runs, bp, n))
    ensures Freed(runs, bp, n)[0] == runs[0]
  {
    SuccAbove(runs, bp, n);
    FreedAtWellFormed(runs, PredIndex(runs, bp), bp, n);
  }

  /** The block and the runs left after it form a chain of non-empty runs. */
  lemma {:induction false} AfterFacts(runs: seq<Run>, t: nat, bp: int, n: nat)
    requires WellFormed(runs) && t < |runs| && n >= 1
    requires t + 1 < |runs| ==> bp + n * HSIZE <= runs[t + 1].addr
    ensures var blk := Block(runs, t, bp, n);
      var rest := After(runs, t, bp, n);
      && blk.addr == bp && blk.units >= 1
      && Chained(rest) && (forall i :: 0 <= i < |rest| ==> rest[i].units >= 1)
      && (rest != [] ==> End(blk) < rest[0].addr)
  {
    if JoinsSucc(runs, t, bp, n) {
      assert After(runs, t, bp, n) == runs[t + 2..];
      assert End(Block(runs, t, bp, n)) == End(runs[t + 1]);
    } else {
      assert After(runs, t, bp, n) == runs[t + 1..];
    }
  }

  lemma {:induction false} FreedAtWellFormed(runs: seq<Run>, t: nat, bp: int, n: nat)
    requires WellFormed(runs) && t < |runs| && n >= 1
    requires runs[t].addr < bp && End(runs[t]) <= bp
    requires t + 1 < |runs| ==> bp + n * HSIZE <= runs[t + 1].addr
    ensures WellFormed(FreedAt(runs, t, bp, n)) && FreedAt(runs, t, bp, n)[0] == runs[0]
  {
    AfterFacts(runs, t, bp, n);
    var blk := Block(runs, t, bp, n);
    var rest := After(runs, t, bp, n);
    if End(runs[t]) == bp {
      MergedWellFormed(runs, t, blk, rest);
      assert FreedAt(runs, t, bp, n) == runs[..t] + [Run(runs[t].addr, runs[t].units + blk.units)] + rest;
    } else {
      LinkedWellFormed(runs, t, blk, rest);
      assert FreedAt(runs, t, bp, n) == runs[..t + 1] + [blk] + rest;
    }
  }

  /** The freed block merged into the run t it touches, followed by rest. */
  lemma {:induction false} MergedWellFormed(runs: seq<Run>, t: nat, blk: Run, rest: seq<Run>)
    requires WellFormed(runs) && t < |runs| && runs[t].addr < blk.addr == End(runs[t]) && blk.units >= 1
    requires Chained(rest) && (forall i :: 0 <= i < |rest| ==> rest[i].units >= 1)
    requires rest != [] ==> End(blk) < rest[0].addr
    ensures var m := Run(runs[t].addr, runs[t].units + blk.units);
      WellFormed(runs[..t] + [m] + rest) && (runs[..t] + [m] + rest)[0] == runs[0]
  {
    var m := Run(runs[t].addr, runs[t].units + blk.units);
    var l := runs[..t];
    assert End(l[t - 1]) < m.addr by {
      assert l[t - 1] == runs[t - 1];
    }
    assert Chained(l) && NonEmptyRuns(l) && l[0] == runs[0];
    WellFormedJoin(l, m, rest);
  }

  /** The freed block linked in after run t, which it does not touch, followed by rest. */
  lemma {:induction false} LinkedWellFormed(runs: seq<Run>, t: nat, blk: Run, rest: seq<Run>)
    requires WellFormed(runs) && t < |runs| && End(runs[t]) < blk.addr && blk.units >= 1
    requires Chained(rest) && (forall i :: 0 <= i < |rest| ==> rest[i].units >= 1)
    requires rest != [] ==> End(blk) < rest[0].addr
    ensures WellFormed(runs[..t + 1] + [blk] + rest) && (runs[..t + 1] + [blk] + rest)[0] == runs[0]
  {
    var l := runs[..t + 1];
    assert Chained(l) && NonEmptyRuns(l) && l[0] == runs[0];
    WellFormedJoin(l, blk, rest);
  }

  lemma {:induction false} IsFreeJoin(l: seq<Run>, m: Run, r: seq<Run>, a: int)
    ensures IsFree(l + [m] + r, a) <==> IsFree(l, a) || (m.addr <= a < End(m)) || IsFree(r, a)
  {
    var f := l + [m] + r;
    if IsFree(f, a) {
      var i :| 0 <= i < |f| && f[i].addr <= a < End(f[i]);
      if i < |l| {
        assert f[i] == l[i];
      } else if i > |l| {
        assert f[i] == r[i - |l| - 1];
      }
    }
    if IsFree(l, a) {
      var i :| 0 <= i < |l| && l[i].addr <= a < End(l[i]);
      assert f[i] == l[i];
    }
    if IsFree(r, a) {
      var i :| 0 <= i < |r| && r[i].addr <= a < End(r[i]);
      assert f[i + |l| + 1] == r[i];
    }
    assert f[|l|] == m;
  }

  lemma {:induction false} IsFreeSplit(runs: seq<Run>, t: nat, a: int)
    requires t < |runs|
    ensures IsFree(runs, a) <==> IsFree(runs[..t], a) || (runs[t].addr <= a < End(runs[t])) || IsFree(runs[t + 1..], a)
  {
    assert runs == runs[..t] + [runs[t]] + runs[t + 1..];
    IsFreeJoin(runs[..t], runs[t], runs[t + 1..], a);
  }

  /** Giving back a block adds exactly its addresses to the free list. */
  lemma {:induction false} FreedFree(runs: seq<Run>, bp: int, n: nat, a: int)
    requires WellFormed(runs) && Releasable(runs, bp, n)
    ensures IsFree(Freed(runs, bp, n), a) <==> IsFree(runs, a) || bp <= a < bp + n * HSIZE
  {
    SuccAbove(runs, bp, n);
    FreedAtFree(runs, PredIndex(runs, bp), bp, n, a);
  }

  lemma {:induction false} FreedAtFree(runs: seq<Run>, t: nat, bp: int, n: nat, a: int)
    requires WellFormed(runs) && t < |runs| && n >= 1
    requires runs[t].addr < bp && End(runs[t]) <= bp
    requires t + 1 < |runs| ==> bp + n * HSIZE <= runs[t + 1].addr
    ensures IsFree(FreedAt(runs, t, bp, n), a) <==> IsFree(runs, a) || bp <= a < bp + n * HSIZE
  {
    IsFreeSplit(runs, t, a);
    AfterFree(runs, t, bp, n, a);
    FreedAtFreeSplit(runs, t, bp, n, a);
  }

  /**
   * The free addresses after run t: those of the successor, when the
   * block absorbs it, and those of the runs left in place.
   */
  lemma {:induction false} AfterFree(runs: seq<Run>, t: nat, bp: int, n: nat, a: int)
    requires t < |runs|
    ensures var blk := Block(runs, t, bp, n);
      (IsFree(runs[t + 1..], a) || bp <= a < bp + n * HSIZE)
      <==> (blk.addr <= a < End(blk)) || IsFree(After(runs, t, bp, n), a)
  {
    if JoinsSucc(runs, t, bp, n) {
      var rest := After(runs, t, bp, n);
      assert runs[t + 1..] == [] + [runs[t + 1]] + rest;
      IsFreeJoin([], runs[t + 1], rest, a);
    }
  }

  /** The free addresses of the list with the block linked in after run t, merged or not. */
  lemma {:induction false} FreedAtFreeSplit(runs: seq<Run>, t: nat, bp: int, n: nat, a: int)
    requires t < |runs| && End(runs[t]) <= bp
    ensures var blk := Block(runs, t, bp, n);
      IsFree(FreedAt(runs, t, bp, n), a)
      <==> (IsFree(runs[..t], a) || (runs[t].addr <= a < End(runs[t])) || (blk.addr <= a < End(blk))
        || IsFree(After(runs, t, bp, n), a))
  {
    var blk := Block(runs, t, bp, n);
    var rest := After(runs, t, bp, n);
    if End(runs[t]) == bp {
      var m := Run(runs[t].addr, runs[t].units + blk.units);
      IsFreeJoin(runs[..t], m, rest, a);
    } else {
      IsFreeJoin(runs[..t + 1], blk, rest, a);
      IsFreeSplit(runs[..t + 1], t, a);
      assert runs[..t + 1][..t] == runs[..t];
    }
  }

  /** The block handed out may be given back: none of its bytes is free any more. */
  lemma {:induction false} CarvedReleasable(runs: seq<Run>, j: nat, n: nat)
    requires WellFormed(runs) && j < |runs| && runs[j].units >= n >= 1
    ensures Releasable(Carve(runs, j, n), CarvedBlock(runs, j, n), n)
  {
    var c := Carve(runs, j, n);
    var b := CarvedBlock(runs, j, n);
    CarveWellFormed(runs, j, n);
    assert runs[0].addr < b by {
      Ascending(runs, 0, j);
    }
    forall i | 0 <= i < |c| ensures End(c[i]) <= b || b + n * HSIZE <= c[i].addr {
      var x := if c[i].addr > b then c[i].addr else b;
      if c[i].units > 0 && c[i].addr < b + n * HSIZE && b < End(c[i]) {
        assert IsFree(c, x);
        CarveFree(runs, j, n, x);
      }
    }
  }

  /** Allocating a block and giving it back leaves the same free addresses and units. */
  lemma {:induction false} AllocateThenDeallocate(runs: seq<Run>, j: nat, n: nat, a: int)
    requires WellFormed(runs) && j < |runs| && runs[j].units >= n >= 1
    ensures var c := Carve(runs, j, n);
      var b := CarvedBlock(runs, j, n);
      && Releasable(c, b, n)
      && Units(Freed(c, b, n)) == Units(runs)
      && (IsFree(Freed(c, b, n), a) <==> IsFree(runs, a))
  {
    var c := Carve(runs, j, n);
    var b := CarvedBlock(runs, j, n);
    CarveWellFormed(runs, j, n);
    CarveUnits(runs, j, n);
    CarveFree(runs, j, n, a);
    CarvedReleasable(runs, j, n);
    FreedUnits(c, b, n);
    FreedFree(c, b, n, a);
    if b <= a < b + n * HSIZE {
      assert runs[j].addr <= a < End(runs[j]);
    }
  }


  // ---------------------------------------------------------------------
  // Blocks in use
  // ---------------------------------------------------------------------

  /** A block may be given back exactly when none of its bytes is free. */
  lemma {:induction false} ReleasableIff(runs: seq<Run>, bp: int, n: nat)
    requires WellFormed(runs) && runs[0].addr < bp && n >= 1
    ensures Releasable(runs, bp, n) <==> forall a :: bp <= a < bp + n * HSIZE ==> !IsFree(runs, a)
  {
    if !Releasable(runs, bp, n) {
      var i :| 0 <= i < |runs| && !(End(runs[i]) <= bp || bp + n * HSIZE <= runs[i].addr);
      var a := if runs[i].addr > bp then runs[i].addr else bp;
      assert runs[i].addr <= a < End(runs[i]);
      assert IsFree(runs, a) && bp <= a < bp + n * HSIZE;
    }
  }

  /** The block handed out lies above the sentinel and below the end of the last run. */
  lemma {:induction false} CarvedInside(runs: seq<Run>, j: nat, n: nat)
    requires WellFormed(runs) && j < |runs| && runs[j].units >= n >= 1
    ensures runs[0].addr < CarvedBlock(runs, j, n)
    ensures CarvedBlock(runs, j, n) + n * HSIZE <= End(runs[|runs| - 1])
  {
    CarveWellFormed(runs, j, n);
    Ascending(runs, 0, j);
    if j < |runs| - 1 {
      Ascending(runs, j, |runs| - 1);
    }
  }

  /**
   * A block in use stays in use when another block is taken, and the block
   * taken does not overlap it.
   */
  lemma {:induction false} CarveKeeps(runs: seq<Run>, j: nat, n: nat, b: int, m: nat)
    requires WellFormed(runs) && j < |runs| && runs[j].units >= n >= 1
    requires Releasable(runs, b, m)
    ensures Releasable(Carve(runs, j, n), b, m)
    ensures var c := CarvedBlock(runs, j, n);
      c + n * HSIZE <= b || b + m * HSIZE <= c
  {
    CarveWellFormed(runs, j, n);
    var c := Carve(runs, j, n);
    ReleasableIff(runs, b, m);
    ReleasableIff(c, b, m);
    forall a | b <= a < b + m * HSIZE ensures !IsFree(c, a) {
      CarveFree(runs, j, n, a);
    }
  }

  /** A block in use stays in use when a block that does not overlap it is given back. */
  lemma {:induction false} FreedKeeps(runs: seq<Run>, bp: int, n: nat, b: int, m: nat)
    requires WellFormed(runs) && Releasable(runs, bp, n) && Releasable(runs, b, m)
    requires bp + n * HSIZE <= b || b + m * HSIZE <= bp
    ensures Releasable(Freed(runs, bp, n), b, m)
  {
    FreedWellFormed(runs, bp, n);
    var f := Freed(runs, bp, n);
    ReleasableIff(runs, b, m);
    ReleasableIff(f, b, m);
    forall a | b <= a < b + m * HSIZE ensures !IsFree(f, a) {
      FreedFree(runs, bp, n, a);
    }
  }

  // ---------------------------------------------------------------------
  // A memory region
  // ---------------------------------------------------------------------

  /**
   * The invariant of a region: a well-formed free list inside [lower, upper]
   * of the address space, a valid search start, and free counting exactly
   * the bytes of the free runs.
   */
  predicate RegionOk(lower: int, upper: int, runs: seq<Run>, first: nat, free: int)
  {
    && 0 <= lower
    && WellFormed(runs)
    && first < |runs|
    && lower <= runs[0].addr
    && End(runs[|runs| - 1]) <= upper
    && free == Units(runs) * HSIZE
  }

  /** Carving n units out of run j keeps a region consistent; the walk restarts at run j - 1. */
  lemma {:induction false} CarveRegionOk(lower: int, upper: int, runs: seq<Run>, free: int, j: nat, n: nat)
    requires RegionOk(lower, upper, runs, 0, free) && j < |runs| && runs[j].units >= n >= 1
    ensures j >= 1 && RegionOk(lower, upper, Carve(runs, j, n), j - 1, free - n * HSIZE)
  {
    CarveWellFormed(runs, j, n);
    CarveUnits(runs, j, n);
    CarveInside(runs, j, n, lower, upper);
  }

  class MemHeader {
    var name: Option<string>
    var pri: int
    /** mh->attr, a short, as the 32-bit pattern it widens to in an &. */
    var attr: bv32
    /** The region [lower, upper) given to iInitMemHeader. */
    const lower: int
    const upper: int
    /** The circular free list, in ascending address order, sentinel first. */
    var runs: seq<Run>
    /** mh->first: the run where the next search starts (as an index into runs). */
    var first: nat
    /** The number of free bytes. */
    var free: int

    ghost predicate Valid()
      reads this
    {
      RegionOk(lower, upper, runs, first, free)
    }

    constructor (lower: int, upper: int, sentinel: int)
      requires 0 <= lower <= sentinel <= upper
      ensures Valid() && this.lower == lower && this.upper == upper
      ensures runs == [Run(sentinel, 0)] && first == 0 && free == 0
      ensures name == None && pri == 0 && attr == 0
    {
      this.lower := lower;
      this.upper := upper;
      runs := [Run(sentinel, 0)];
      first := 0;
      free := 0;
      name := None;
      pri := 0;
      attr := 0;
      new;
      UnitsSingle(Run(sentinel, 0));
    }

    /**
     * The search loop of iAllocate: walk once round from the run after
     * first, stopping at the first run of at least n units; the walk ends
     * after it has looked at first itself.
     */
    method Search(n: nat) returns (j: Option<nat>)
      requires Valid()
      ensures j == Fit(runs, first, n)
    {
      var count := |runs|;
      var q := Step(count, first, 1);
      var k := 1;
      while true
        invariant 1 <= k <= count && q == Step(count, first, k)
        invariant FitStep(runs, first, n, 1) == FitStep(runs, first, n, k)
        decreases count - k
      {
        if runs[q].units >= n {
          return Some(q);
        }
        if q == first {
          return None;
        }
        q := Step(count, first, k + 1);
        k := k + 1;
      }
    }

    /**
     * The success branch of iAllocate: unlink run j on an exact fit, else
     * shorten it and hand out its top n units; the search resumes at the
     * run before j.
     */
    method Take(j: nat, n: nat) returns (p: int)
      requires Valid() && j < |runs| && runs[j].units >= n >= 1
      modifies this`runs, this`first, this`free
      ensures Valid()
      ensures p == CarvedBlock(old(runs), j, n)
      ensures runs == Carve(old(runs), j, n)
      ensures first == j - 1
      ensures free == old(free) - n * HSIZE
    {
      var rs := runs;
      CarveRegionOk(lower, upper, rs, free, j, n);
      if rs[j].units == n {
        p := rs[j].addr;
        runs := RemoveAt(rs, j);
      } else {
        var left := rs[j].units - n;
        p := rs[j].addr + left * HSIZE;
        runs := rs[j := Run(rs[j].addr, left)];
      }
      assert runs == Carve(rs, j, n);
      first := j - 1;
      free := free - n * HSIZE;
    }

    /**
     * iAllocate: search the free list once round, starting after first, for
     * a run of at least NUNITS(numbytes) units, and take the block from it.
     */
    method Allocate(numbytes: size_t) returns (p: Option<int>)
      requires Valid()
      modifies this`runs, this`first, this`free
      ensures Valid()
      ensures var n := NUnits(numbytes);
        var f := Fit(old(runs), old(first), n);
        && (f.None? ==> p.None? && runs == old(runs) && first == old(first) && free == old(free))
        && (f.Some? ==> && p == Some(CarvedBlock(old(runs), f.value, n))
                        && runs == Carve(old(runs), f.value, n)
                        && first == f.value - 1
                        && free == old(free) - n * HSIZE)
    {
      var n := NUnits(numbytes);
      var j := Search(n);
      if j.None? {
        return None;
      }
      var b := Take(j.value, n);
      return Some(b);
    }

    /**
     * The search loop of iDeallocate: from first, follow the list until the
     * block lies between a run and its successor, or beyond the last run.
     */
    method WalkToPred(block: int) returns (p: nat)
      requires Valid() && Releasable(runs, block, 1)
      ensures p == PredIndex(runs, block)
    {
      var rs := runs;
      var count := |rs|;
      ghost var t := PredIndex(rs, block);
      WalkStopsAtPred(rs, block, 1);
      p := first;
      while !(block > rs[p].addr && block < rs[Next(count, p)].addr)
        invariant p < count
        decreases if p <= t then t - p else t + count - p
      {
        if rs[p].addr >= rs[Next(count, p)].addr && (block > rs[p].addr || block < rs[Next(count, p)].addr) {
          break;
        }
        assert p != t;
        p := Next(count, p);
      }
      WalkStopsOnlyAtPred(rs, block, p);
    }

    /**
     * iDeallocate: walk from first to the run after which the block belongs,
     * link it in, and merge it with its successor and then its predecessor
     * when they touch.
     */
    method Deallocate(block: int, nbytes: size_t)
      requires Valid() && Releasable(runs, block, NUnits(nbytes))
      requires block + NUnits(nbytes) * HSIZE <= upper
      modifies this`runs, this`first, this`free
      ensures Valid()
      ensures runs == Freed(old(runs), block, NUnits(nbytes))
      ensures first == PredIndex(old(runs), block)
      ensures free == old(free) + NUnits(nbytes) * HSIZE
    {
      var n := NUnits(nbytes);
      var rs := runs;
      var p := WalkToPred(block);
      FreedWellFormed(rs, block, n);
      FreedUnits(rs, block, n);
      FreedInside(rs, block, n, upper);
      var nr := LinkFreed(rs, p, block, n);
      assert nr == Freed(rs, block, n);
      runs := nr;
      first := p;
      free := free + n * HSIZE;
    }
  }

  /**
   * The splice of iDeallocate once the walk has found the predecessor p: the
   * block absorbs the (cyclic) successor run when it ends where that run
   * starts, and the predecessor absorbs the block when it ends where the
   * block starts. A wrap-around successor (run 0) never touches the block,
   * which lies above it.
   */
  method LinkFreed(rs: seq<Run>, p: nat, block: int, n: nat) returns (nr: seq<Run>)
    requires p < |rs| && rs[0].addr < block && n >= 1
    ensures nr == FreedAt(rs, p, block, n)
  {
    var s := Next(|rs|, p);
    var blk: Run;
    var rest: seq<Run>;
    if block + n * HSIZE == rs[s].addr {
      blk := Run(block, n + rs[s].units);
      rest := rs[s + 1..];
    } else {
      blk := Run(block, n);
      rest := rs[p + 1..];
    }
    assert blk == Block(rs, p, block, n) && rest == After(rs, p, block, n);
    if End(rs[p]) == block {
      nr := rs[..p] + [Run(rs[p].addr, rs[p].units + blk.units)] + rest;
    } else {
      nr := rs[..p + 1] + [blk] + rest;
    }
  }

  /** iDeallocate's walk stops at the predecessor of a releasable block. */
  lemma {:induction false} WalkStopsAtPred(runs: seq<Run>, bp: int, n: nat)
    requires WellFormed(runs) && Releasable(runs, bp, n)
    ensures var t := PredIndex(runs, bp);
      var succ := runs[Next(|runs|, t)].addr;
      (bp > runs[t].addr && bp < succ) || (runs[t].addr >= succ && (bp > runs[t].addr || bp < succ))
  {
    var t := PredIndex(runs, bp);
    if t + 1 < |runs| {
      assert End(runs[t + 1]) > runs[t + 1].addr;
    } else if t > 0 {
      Ascending(runs, 0, t);
    }
  }

  /** iDeallocate's walk stops only at the predecessor. */
  lemma {:induction false} WalkStopsOnlyAtPred(runs: seq<Run>, bp: int, p: nat)
    requires WellFormed(runs) && runs[0].addr < bp && p < |runs|
    requires var succ := runs[Next(|runs|, p)].addr;
      (bp > runs[p].addr && bp < succ) || (runs[p].addr >= succ && (bp > runs[p].addr || bp < succ))
    ensures p == PredIndex(runs, bp)
  {
    var t := PredIndex(runs, bp);
    if p + 1 < |runs| {
      Ascending(runs, p, p + 1);
    } else if p > 0 {
      Ascending(runs, 0, p);
    }
    if t + 1 < p {
      Ascending(runs, t + 1, p);
    } else if p + 1 < t {
      Ascending(runs, p + 1, t);
    }
  }

  /** A block given back inside the region leaves the free list inside it. */
  lemma {:induction false} FreedInside(runs: seq<Run>, bp: int, n: nat, upper: int)
    requires WellFormed(runs) && Releasable(runs, bp, n)
    requires End(runs[|runs| - 1]) <= upper && bp + n * HSIZE <= upper
    ensures var f := Freed(runs, bp, n);
      |f| >= 1 && End(f[|f| - 1]) <= upper
  {
    var t := PredIndex(runs, bp);
    var rest := After(runs, t, bp, n);
    FreedAtLast(runs, t, bp, n);
    if rest != [] {
      assert rest[|rest| - 1] == runs[|runs| - 1];
    } else if JoinsSucc(runs, t, bp, n) {
      assert t + 1 == |runs| - 1;
    }
  }

  /** The last run after the block is linked in after run t: the last run left in place, or the block. */
  lemma {:induction false} FreedAtLast(runs: seq<Run>, t: nat, bp: int, n: nat)
    requires t < |runs|
    ensures var f := FreedAt(runs, t, bp, n);
      var blk := Block(runs, t, bp, n);
      var rest := After(runs, t, bp, n);
      && |f| >= 1
      && End(f[|f| - 1]) == if rest != [] then End(rest[|rest| - 1]) else End(blk)
  {
  }

  /**
   * iInitMemHeader: reject a region smaller than MINSZ; otherwise place the
   * MemHeader at the aligned bottom, install the zero-unit sentinel in mc[0],
   * skip mc[1] so that the sentinel is never merged, and give everything
   * from mc[2] to the aligned top to Deallocate.
   */
  method InitMemHeader(base: size_t, numbytes: size_t) returns (mh: MemHeader?)
    requires base + numbytes < WORD
    ensures numbytes < MINSZ ==> mh == null
    ensures numbytes >= MINSZ ==> mh != null && fresh(mh) && mh.Valid()
    ensures mh != null ==>
      var bottom := AlignUp(base);
      var top := AlignDown(base + numbytes);
      && mh.lower == base && mh.upper == base + numbytes
      && mh.runs == [Run(bottom + MC_OFFSET, 0), Run(bottom + MC_OFFSET + 2 * HSIZE, (top - bottom - MC_OFFSET - 2 * HSIZE) / HSIZE)]
      && mh.free == top - bottom - MC_OFFSET - 2 * HSIZE
      && mh.name == None
  {
    if numbytes < MINSZ {
      return null;
    }
    var lower := base;
    var upper := base + numbytes;
    var bottom := AlignUp(lower);
    var top := AlignDown(upper);
    var mc0 := bottom + MC_OFFSET;
    var mc2 := mc0 + 2 * HSIZE;
    var len := top - mc2;
    InitLayout(base, numbytes);
    NUnitsExact(len);
    ghost var units := len / HSIZE;
    FreedAfterSentinel(mc0, units);
    mh := new MemHeader(lower, upper, mc0);
    mh.Deallocate(mc2, len);
    assert mh.runs == [Run(mc0, 0), Run(mc2, units)] && mh.free == len;
  }

  /**
   * The layout iInitMemHeader sets up in a region of at least MINSZ bytes:
   * the sentinel mc[0] lies inside it, and from mc[2] to the aligned top
   * there is a whole, non-zero number of units.
   */
  lemma {:induction false} InitLayout(base: size_t, numbytes: size_t)
    requires base + numbytes < WORD && numbytes >= MINSZ
    ensures var bottom := AlignUp(base);
      var top := AlignDown(base + numbytes);
      var len := top - (bottom + MC_OFFSET + 2 * HSIZE);
      && base <= bottom + MC_OFFSET && top <= base + numbytes
      && len >= HSIZE && len % HSIZE == 0
  {
  }

  /** A whole number of units needs no rounding. */
  lemma {:induction false} NUnitsExact(len: size_t)
    requires len >= HSIZE && len % HSIZE == 0
    ensures NUnits(len) == len / HSIZE && NUnits(len) * HSIZE == len
  {
  }

  /** Giving a block back two headers above the lone sentinel links it in after the sentinel. */
  lemma {:induction false} FreedAfterSentinel(mc0: int, n: nat)
    requires n >= 1
    ensures Freed([Run(mc0, 0)], mc0 + 2 * HSIZE, n) == [Run(mc0, 0), Run(mc0 + 2 * HSIZE, n)]
  {
    var rs := [Run(mc0, 0)];
    assert PredIndex(rs, mc0 + 2 * HSIZE) == 0;
    assert !JoinsSucc(rs, 0, mc0 + 2 * HSIZE, n);
  }
}
