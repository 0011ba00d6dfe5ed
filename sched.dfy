/**
 * The SMP scheduler of mod/exec/mp.c.  `schedule` runs under the task
 * lock and picks an heir task for every online CPU; one pass of the loop
 * of `switch_tasks`, with `process_removing`, hands a task that removed
 * itself over to the cleanup task.  Interrupt masking, register save and
 * restore and the IPI itself are not modelled: an IPI is the CPU number
 * recorded in the sequence `ipis`.
 */
module Scheduling {
  import opened Lists
  import opened Tasks

  /** An ExecCPU: the fields schedule and switch_tasks use. */
  class CPU {
    /** The CPU number, a bit position in schedule's masks. */
    const id: nat
    /** The CPU's own idle task, of priority TASK_PRI_IDLE. */
    const idle: Task
    var heir: Task
    var thistask: Task
    var switch_needed: bool
    /** The task last switched away from while it was TS_REMOVING, or null. */
    var removing: Task?

    /** InitCPU once its idle task exists: the idle task is both heir and running. */
    constructor (id: nat, idle: Task)
      ensures this.id == id && this.idle == idle
      ensures heir == idle && thistask == idle && !switch_needed && removing == null
    {
      this.id := id;
      this.idle := idle;
      heir := idle;
      thistask := idle;
      switch_needed := false;
      removing := null;
    }
  }

  // ---------------------------------------------------------------------
  // The online CPUs
  // ---------------------------------------------------------------------

  /** The CPU numbers, in cpuonline order. */
  function Ids(cpus: seq<CPU>): (r: seq<nat>)
    ensures |r| == |cpus| && forall i :: 0 <= i < |cpus| ==> r[i] == cpus[i].id
  {
    seq(|cpus|, i requires 0 <= i < |cpus| => cpus[i].id)
  }

  /** The heirs of the CPUs, in cpuonline order. */
  function Heirs(cpus: seq<CPU>): (r: seq<Task>)
    reads cpus
    ensures |r| == |cpus| && forall i :: 0 <= i < |cpus| ==> r[i] == cpus[i].heir
  {
    seq(|cpus|, i requires 0 <= i < |cpus| reads cpus => cpus[i].heir)
  }

  /** The switch_needed flags of the CPUs, in cpuonline order. */
  function Needs(cpus: seq<CPU>): (r: seq<bool>)
    reads cpus
    ensures |r| == |cpus| && forall i :: 0 <= i < |cpus| ==> r[i] == cpus[i].switch_needed
  {
    seq(|cpus|, i requires 0 <= i < |cpus| reads cpus => cpus[i].switch_needed)
  }

  /**
   * cpuonline as schedule expects it: the CPU numbers are distinct bit
   * positions of an unsigned int (1U << id is defined only below 32), and
   * each CPU has an idle task of its own.
   */
  predicate Online(cpus: seq<CPU>) {
    && Distinct(Ids(cpus))
    && (forall i :: 0 <= i < |cpus| ==> cpus[i].id < 32)
    && (forall i, j :: 0 <= i < j < |cpus| ==> cpus[i].idle != cpus[j].idle)
  }

  /**
   * Every idle task is ready, as the comment above isinlist says, at
   * priority TASK_PRI_IDLE.
   */
  ghost predicate Parked(k: Kernel, cpus: seq<CPU>)
    reads k, k.taskready
  {
    forall i :: 0 <= i < |cpus| ==> cpus[i].idle in k.taskready && cpus[i].idle.pri == TASK_PRI_IDLE
  }

  /** No task of tlist is the idle task of one of the CPUs. */
  predicate Apart(cpus: seq<CPU>, tlist: seq<Task>) {
    forall j :: 0 <= j < |cpus| ==> cpus[j].idle !in tlist
  }

  /**
   * The number of tasks the first loop of schedule takes from the head of
   * the ready list ts for n online CPUs: one per CPU, stopping at the
   * first idle task.
   */
  function Lead(ts: seq<Task>, n: nat): (m: nat)
    reads ts`pri
    ensures m <= n && m <= |ts|
    ensures forall j :: 0 <= j < m ==> ts[j].pri != TASK_PRI_IDLE
    ensures m < n && m < |ts| ==> ts[m].pri == TASK_PRI_IDLE
  {
    if n == 0 || ts == [] || ts[0].pri == TASK_PRI_IDLE then 0
    else 1 + Lead(ts[1..], n - 1)
  }

  /** Lead is the only count with its three defining properties. */
  lemma {:induction false} LeadUnique(ts: seq<Task>, n: nat, m: nat)
    requires m <= n && m <= |ts|
    requires forall j :: 0 <= j < m ==> ts[j].pri != TASK_PRI_IDLE
    requires m < n ==> m < |ts| && ts[m].pri == TASK_PRI_IDLE
    ensures Lead(ts, n) == m
  {
    if m > 0 {
      LeadUnique(ts[1..], n - 1, m - 1);
    }
  }

  /** The numbers of the first i CPUs, as the first loop of schedule gathers them in allmask. */
  function Marks(cpus: seq<CPU>, i: nat): set<nat>
    requires i <= |cpus|
  {
    if i == 0 then {} else Marks(cpus, i - 1) + {cpus[i - 1].id}
  }

  /** A number is marked exactly when one of the first i CPUs has it. */
  lemma {:induction false} MarksHas(cpus: seq<CPU>, i: nat, n: nat)
    requires i <= |cpus|
    ensures n in Marks(cpus, i) <==> exists c :: 0 <= c < i && cpus[c].id == n
  {
    if i > 0 {
      MarksHas(cpus, i - 1, n);
    }
  }

  /** One more CPU takes one more task exactly when every CPU so far took one and the next task is not idle. */
  lemma {:induction false} LeadStep(ts: seq<Task>, n: nat)
    ensures Lead(ts, n + 1) == if Lead(ts, n) == n && n < |ts| && ts[n].pri != TASK_PRI_IDLE then n + 1 else Lead(ts, n)
  {
    if n > 0 && ts != [] && ts[0].pri != TASK_PRI_IDLE {
      LeadStep(ts[1..], n - 1);
      if n < |ts| {
        assert ts[1..][n - 1] == ts[n];
      }
    }
  }

  /**
   * While an idle task is on the list, the (i+1)-th turn of schedule's
   * first loop finds a head: Lead counts one more exactly when it is not
   * an idle task.
   */
  lemma {:induction false} HeadStep(ts: seq<Task>, i: nat, idle: Task)
    requires idle in ts && idle.pri == TASK_PRI_IDLE
    ensures Lead(ts, i) < |ts|
    ensures Lead(ts, i + 1) == if ts[Lead(ts, i)].pri != TASK_PRI_IDLE then Lead(ts, i) + 1 else Lead(ts, i)
    ensures ts[..Lead(ts, i) + 1] == ts[..Lead(ts, i)] + [ts[Lead(ts, i)]]
  {
    var a :| 0 <= a < |ts| && ts[a] == idle;
    assert Lead(ts, i) <= a;
    LeadStep(ts, i);
  }

  /** The positions from s on of the CPUs whose numbers are not in mask, in cpuonline order. */
  function Free(cpus: seq<CPU>, mask: set<nat>, s: nat): (r: seq<nat>)
    ensures forall m :: 0 <= m < |r| ==> s <= r[m] < |cpus| && cpus[r[m]].id !in mask
    ensures forall a, b :: 0 <= a < b < |r| ==> r[a] < r[b]
    decreases |cpus| - s
  {
    if s >= |cpus| then []
    else (if cpus[s].id in mask then [] else [s]) + Free(cpus, mask, s + 1)
  }

  /** With nothing marked every CPU from s on is free. */
  lemma {:induction false} FreeNone(cpus: seq<CPU>, s: nat)
    requires s <= |cpus|
    ensures |Free(cpus, {}, s)| == |cpus| - s
    decreases |cpus| - s
  {
    if s < |cpus| {
      FreeNone(cpus, s + 1);
    }
  }

  /**
   * Marking CPU i, free until now, leaves one CPU fewer free counting from
   * i or before, and as many counting from after i.
   */
  lemma {:induction false} FreeMark(cpus: seq<CPU>, mask: set<nat>, i: nat, s: nat)
    requires Distinct(Ids(cpus)) && i < |cpus| && cpus[i].id !in mask
    ensures s <= i ==> |Free(cpus, mask + {cpus[i].id}, s)| == |Free(cpus, mask, s)| - 1
    ensures s > i ==> Free(cpus, mask + {cpus[i].id}, s) == Free(cpus, mask, s)
    decreases |cpus| - s
  {
    if s < |cpus| {
      FreeMark(cpus, mask, i, s + 1);
      assert s != i ==> Ids(cpus)[s] != Ids(cpus)[i];
    }
  }

  // ---------------------------------------------------------------------
  // Heirs kept
  // ---------------------------------------------------------------------

  /** The heirs of the first i CPUs. */
  function Claimed(cpus: seq<CPU>, i: nat): set<Task>
    requires i <= |cpus|
    reads cpus
  {
    if i == 0 then {} else Claimed(cpus, i - 1) + {cpus[i - 1].heir}
  }

  /** A task is claimed exactly when one of the first i CPUs has it as heir. */
  lemma {:induction false} ClaimedHas(cpus: seq<CPU>, i: nat, t: Task)
    requires i <= |cpus|
    ensures t in Claimed(cpus, i) <==> exists c :: 0 <= c < i && cpus[c].heir == t
  {
    if i > 0 {
      ClaimedHas(cpus, i - 1, t);
    }
  }

  /** The tasks of ts that are not claimed, in their order on ts. */
  function Unclaimed(ts: seq<Task>, claimed: set<Task>): (r: seq<Task>)
    ensures |r| <= |ts|
  {
    if ts == [] then [] else (if ts[0] in claimed then [] else [ts[0]]) + Unclaimed(ts[1..], claimed)
  }

  /** What is unclaimed is on ts and not claimed, and nothing else. */
  lemma {:induction false} UnclaimedHas(ts: seq<Task>, claimed: set<Task>, t: Task)
    ensures t in Unclaimed(ts, claimed) <==> t in ts && t !in claimed
  {
    if ts != [] {
      UnclaimedHas(ts[1..], claimed, t);
      assert ts == [ts[0]] + ts[1..];
    }
  }

  /** With nothing claimed every task is unclaimed. */
  lemma {:induction false} UnclaimedNone(ts: seq<Task>)
    ensures Unclaimed(ts, {}) == ts
  {
    if ts != [] {
      UnclaimedNone(ts[1..]);
      assert ts == [ts[0]] + ts[1..];
    }
  }

  /** Claiming a task that is not on ts changes nothing. */
  lemma {:induction false} UnclaimedSkip(ts: seq<Task>, claimed: set<Task>, h: Task)
    requires h !in ts
    ensures Unclaimed(ts, claimed + {h}) == Unclaimed(ts, claimed)
  {
    if ts != [] {
      assert ts[1..] == ts[1..] && h !in ts[1..] by {
        forall b | 0 <= b < |ts| - 1
          ensures ts[1..][b] != h
        {
          assert ts[1..][b] == ts[b + 1];
        }
      }
      UnclaimedSkip(ts[1..], claimed, h);
    }
  }

  /** Claiming an unclaimed task h takes it off the unclaimed tasks, as iRemove does. */
  lemma {:induction false} UnclaimedClaim(ts: seq<Task>, claimed: set<Task>, h: Task)
    requires Distinct(ts) && h in Unclaimed(ts, claimed)
    ensures var u := Unclaimed(ts, claimed);
      Unclaimed(ts, claimed + {h}) == RemoveAt(u, IndexOf(u, h))
  {
    DistinctTail(ts);
    var r := ts[1..];
    if ts[0] in claimed {
      assert h in Unclaimed(r, claimed);
      UnclaimedClaim(r, claimed, h);
      ClaimPast(ts, claimed, h);
    } else if ts[0] == h {
      UnclaimedSkip(r, claimed, h);
      ClaimHead(ts, claimed);
    } else {
      assert h in Unclaimed(r, claimed);
      UnclaimedClaim(r, claimed, h);
      ClaimBehind(ts, claimed, h);
    }
  }

  /** UnclaimedClaim for a claimed head, from the claim on the tail. */
  lemma {:induction false} ClaimPast(ts: seq<Task>, claimed: set<Task>, h: Task)
    requires ts != [] && ts[0] in claimed
    requires var v := Unclaimed(ts[1..], claimed);
      h in v && Unclaimed(ts[1..], claimed + {h}) == RemoveAt(v, IndexOf(v, h))
    ensures var u := Unclaimed(ts, claimed);
      h in u && Unclaimed(ts, claimed + {h}) == RemoveAt(u, IndexOf(u, h))
  {
    assert ts[0] in claimed + {h};
    assert Unclaimed(ts, claimed) == Unclaimed(ts[1..], claimed);
    assert Unclaimed(ts, claimed + {h}) == Unclaimed(ts[1..], claimed + {h});
  }

  /** UnclaimedClaim for h at the head, once h is not on the tail. */
  lemma {:induction false} ClaimHead(ts: seq<Task>, claimed: set<Task>)
    requires ts != [] && ts[0] !in claimed
    requires Unclaimed(ts[1..], claimed + {ts[0]}) == Unclaimed(ts[1..], claimed)
    ensures var u := Unclaimed(ts, claimed);
      ts[0] in u && Unclaimed(ts, claimed + {ts[0]}) == RemoveAt(u, IndexOf(u, ts[0]))
  {
    var u := Unclaimed(ts, claimed);
    assert u == [ts[0]] + Unclaimed(ts[1..], claimed);
    assert RemoveAt(u, 0) == u[1..];
  }

  /** The tail of a list without repeats has none and lacks the head. */
  lemma {:induction false} DistinctTail(ts: seq<Task>)
    requires Distinct(ts) && ts != []
    ensures Distinct(ts[1..]) && ts[0] !in ts[1..]
  {
    var r := ts[1..];
    forall a, b | 0 <= a < b < |r|
      ensures r[a] != r[b]
    {
      assert r[a] == ts[a + 1] && r[b] == ts[b + 1];
    }
    forall b | 0 <= b < |r|
      ensures r[b] != ts[0]
    {
      assert r[b] == ts[b + 1];
    }
  }

  /** UnclaimedClaim for an unclaimed head other than h, from the claim on the tail. */
  lemma {:induction false} ClaimBehind(ts: seq<Task>, claimed: set<Task>, h: Task)
    requires ts != [] && ts[0] !in claimed && ts[0] != h
    requires var v := Unclaimed(ts[1..], claimed);
      h in v && Unclaimed(ts[1..], claimed + {h}) == RemoveAt(v, IndexOf(v, h))
    ensures var u := Unclaimed(ts, claimed);
      h in u && Unclaimed(ts, claimed + {h}) == RemoveAt(u, IndexOf(u, h))
  {
    var u := Unclaimed(ts, claimed);
    var v := Unclaimed(ts[1..], claimed);
    assert u == [ts[0]] + v;
    var j := IndexOf(v, h);
    assert IndexOf(u, h) == 1 + j by {
      assert u[1..] == v;
    }
    RemoveAtCons(ts[0], v, j);
  }

  // ---------------------------------------------------------------------
  // schedule
  // ---------------------------------------------------------------------

  /** isinlist: whether target is on the list. */
  method IsInList(list: seq<Task>, target: Task) returns (r: bool)
    ensures r <==> target in list
  {
    var i := 0;
    while i < |list|
      invariant i <= |list| && target !in list[..i]
    {
      if list[i] == target {
        return true;
      }
      i := i + 1;
    }
    return false;
  }

  /**
   * setheir: the CPU gets its new heir.  The local CPU notes that it must
   * switch tasks; any other CPU is sent an IPI, which ipi reports.
   */
  method SetHeir(cpu: CPU, heir: Task, local: CPU?) returns (ipi: bool)
    modifies cpu`heir, cpu`switch_needed
    ensures cpu.heir == heir && (ipi <==> cpu != local)
    ensures cpu.switch_needed == (old(cpu.switch_needed) || cpu == local)
  {
    cpu.heir := heir;
    if cpu == local {
      cpu.switch_needed := true;
      ipi := false;
    } else {
      ipi := true;
    }
  }

  /** Taking tasks off the head of a valid ready list leaves a valid ready list. */
  lemma {:induction false} DropReady(ts: seq<Task>, m: nat)
    requires m <= |ts| && Distinct(ts) && InState(ts, TS_READY, TS_READY) && ByPriority(ts)
    ensures Distinct(ts[m..]) && InState(ts[m..], TS_READY, TS_READY) && ByPriority(ts[m..])
  {
    var r := ts[m..];
    forall a, b | 0 <= a < b < |r|
      ensures r[a] != r[b] && r[a].pri >= r[b].pri
    {
      assert r[a] == ts[m + a] && r[b] == ts[m + b];
    }
    forall a | 0 <= a < |r|
      ensures r[a].state == TS_READY
    {
      assert r[a] == ts[m + a];
    }
  }

  /** Tasks that were ahead of a valid kernel's ready list on a list of ready tasks are on no list. */
  lemma {:induction false} Unlisted(k: Kernel, r0: seq<Task>, m: nat)
    requires k.Valid() && m <= |r0| && k.taskready == r0[m..]
    requires Distinct(r0) && InState(r0, TS_READY, TS_READY)
    ensures forall t :: t in r0[..m] ==> !k.Known(t) && t.state == TS_READY
  {
    forall t | t in r0[..m]
      ensures !k.Known(t) && t.state == TS_READY
    {
      var a :| 0 <= a < m && r0[..m][a] == t;
      assert r0[a] == t;
      forall b | 0 <= b < |k.taskready|
        ensures k.taskready[b] != t
      {
        assert k.taskready[b] == r0[m + b];
      }
      forall b | 0 <= b < |k.taskwait|
        ensures k.taskwait[b] != t
      {
        assert k.taskwait[b].state == TS_WAIT;
      }
      forall b | 0 <= b < |k.taskremoved|
        ensures k.taskremoved[b] != t
      {
        assert k.taskremoved[b].state >= TS_REMOVING;
      }
    }
  }

  /**
   * The ready list with its first m tasks taken off, none of them an idle
   * task, as the first loop of schedule leaves it: those tasks are then
   * ready and on no list.
   */
  method TakeOff(k: Kernel, cpus: seq<CPU>, m: nat)
    requires k.Valid() && m <= |k.taskready|
    requires Parked(k, cpus) && forall j :: 0 <= j < m ==> k.taskready[j].pri != TASK_PRI_IDLE
    modifies k`taskready
    ensures k.Valid() && Parked(k, cpus)
    ensures k.taskready == old(k.taskready)[m..]
    ensures forall t :: t in old(k.taskready)[..m] ==> !k.Known(t) && t.state == TS_READY
    ensures old(k.taskready) == old(k.taskready)[..m] + k.taskready
  {
    ghost var r0 := k.taskready;
    forall c | 0 <= c < |cpus|
      ensures cpus[c].idle in r0[m..]
    {
      var a :| 0 <= a < |r0| && r0[a] == cpus[c].idle;
      assert r0[m..][a - m] == cpus[c].idle;
    }
    DropReady(r0, m);
    k.taskready := k.taskready[m..];
    Unlisted(k, r0, m);
    assert r0 == r0[..m] + r0[m..];
  }

  /**
   * The first loop of schedule, reading the ready list ready: allmask
   * gets every online CPU's number, and for each CPU the head of the
   * list, which the idle tasks keep from being empty, moves to the tail of
   * tlist unless it is an idle task.
   */
  method Scan(ready: seq<Task>, cpus: seq<CPU>) returns (tlist: seq<Task>, allmask: set<nat>)
    requires forall c :: 0 <= c < |cpus| ==> cpus[c].idle in ready && cpus[c].idle.pri == TASK_PRI_IDLE
    ensures allmask == Marks(cpus, |cpus|)
    ensures tlist == ready[..Lead(ready, |cpus|)] && Apart(cpus, tlist)
  {
    tlist := [];
    allmask := {};
    var i := 0;
    while i < |cpus|
      invariant i <= |cpus|
      invariant tlist == ready[..Lead(ready, i)]
      invariant allmask == Marks(cpus, i)
    {
      allmask := allmask + {cpus[i].id};
      ScanStep(ready, i, cpus[i].idle, tlist);
      var nh := ready[|tlist|];
      if nh.pri != TASK_PRI_IDLE {
        tlist := tlist + [nh];
      }
      i := i + 1;
    }
    LeadApart(ready, cpus);
  }

  /** A turn of the first loop of schedule moves the head to tlist exactly when it is not an idle task. */
  lemma {:induction false} ScanStep(ready: seq<Task>, i: nat, idle: Task, tlist: seq<Task>)
    requires idle in ready && idle.pri == TASK_PRI_IDLE && tlist == ready[..Lead(ready, i)]
    ensures |tlist| < |ready|
    ensures ready[..Lead(ready, i + 1)] == if ready[|tlist|].pri != TASK_PRI_IDLE then tlist + [ready[|tlist|]] else tlist
  {
    HeadStep(ready, i, idle);
  }

  /** The tasks that lead the ready list are none of them an idle task, whose priority is TASK_PRI_IDLE. */
  lemma {:induction false} LeadApart(ready: seq<Task>, cpus: seq<CPU>)
    requires forall c :: 0 <= c < |cpus| ==> cpus[c].idle.pri == TASK_PRI_IDLE
    ensures Apart(cpus, ready[..Lead(ready, |cpus|)])
  {
    var m := Lead(ready, |cpus|);
    forall j | 0 <= j < |cpus|
      ensures cpus[j].idle !in ready[..m]
    {
      assert forall a :: 0 <= a < m ==> ready[..m][a] == ready[a] && ready[a].pri != TASK_PRI_IDLE;
    }
  }

  /**
   * schedule's first loop and the removals it makes: the leading tasks
   * Scan moves to tlist are taken off taskready.
   */
  method Gather(k: Kernel, cpus: seq<CPU>) returns (tlist: seq<Task>, allmask: set<nat>)
    requires k.Valid() && Parked(k, cpus)
    modifies k`taskready
    ensures k.Valid() && Parked(k, cpus)
    ensures old(k.taskready) == tlist + k.taskready
    ensures |tlist| == old(Lead(k.taskready, |cpus|))
    ensures Apart(cpus, tlist)
    ensures forall t :: t in tlist ==> !k.Known(t) && t.state == TS_READY
    ensures allmask == Marks(cpus, |cpus|)
  {
    ghost var r0 := k.taskready;
    tlist, allmask := Scan(k.taskready, cpus);
    TakeOff(k, cpus, |tlist|);
  }

  /** The tasks the second loop of schedule has sorted after its first i turns. */
  ghost predicate Kept(cpus: seq<CPU>, tlist: seq<Task>, i: nat, rest: seq<Task>, kept: seq<Task>)
    reads cpus
  {
    && i <= |cpus|
    && rest == Unclaimed(tlist, Claimed(cpus, i))
    && Distinct(kept)
    && (forall t :: t in kept ==> t in tlist && t in Claimed(cpus, i))
    && (forall t :: t in tlist && t in Claimed(cpus, i) ==> t in kept)
    && |kept| + |rest| == |tlist|
  }

  /** The CPUs the second loop of schedule has marked after its first i turns, n of them. */
  ghost predicate Marked(cpus: seq<CPU>, tlist: seq<Task>, i: nat, assmask: set<nat>, n: nat)
    reads cpus
  {
    && i <= |cpus|
    && (forall j :: 0 <= j < |cpus| ==> (cpus[j].id in assmask <==> j < i && cpus[j].heir in tlist))
    && assmask <= Marks(cpus, |cpus|)
    && n + |Free(cpus, assmask, 0)| == |cpus|
  }

  /** What the second loop of schedule has built after its first i turns. */
  ghost predicate KeepInv(cpus: seq<CPU>, tlist: seq<Task>, i: nat, rest: seq<Task>, kept: seq<Task>, assmask: set<nat>)
    reads cpus
  {
    Kept(cpus, tlist, i, rest, kept) && Marked(cpus, tlist, i, assmask, |kept|)
  }

  /** One turn of the second loop of schedule, on CPU i, for the tasks. */
  lemma {:induction false} KeptStep(cpus: seq<CPU>, tlist: seq<Task>, i: nat, rest: seq<Task>, kept: seq<Task>)
    requires Distinct(Heirs(cpus)) && Distinct(tlist)
    requires Kept(cpus, tlist, i, rest, kept) && i < |cpus|
    ensures var heir := cpus[i].heir;
      && (heir in rest <==> heir in tlist)
      && if heir in rest then Kept(cpus, tlist, i + 1, RemoveAt(rest, IndexOf(rest, heir)), kept + [heir])
         else Kept(cpus, tlist, i + 1, rest, kept)
  {
    var heir := cpus[i].heir;
    ClaimedHas(cpus, i, heir);
    assert heir !in Claimed(cpus, i) by {
      forall c | 0 <= c < i
        ensures cpus[c].heir != heir
      {
        assert Heirs(cpus)[c] != Heirs(cpus)[i];
      }
    }
    UnclaimedHas(tlist, Claimed(cpus, i), heir);
    if heir in rest {
      UnclaimedClaim(tlist, Claimed(cpus, i), heir);
      KeptClaim(cpus, tlist, i, rest, kept);
    } else {
      UnclaimedSkip(tlist, Claimed(cpus, i), heir);
    }
  }

  /** KeptStep for a heir that is on rest, once the claim of it is known. */
  lemma {:induction false} KeptClaim(cpus: seq<CPU>, tlist: seq<Task>, i: nat, rest: seq<Task>, kept: seq<Task>)
    requires Kept(cpus, tlist, i, rest, kept) && i < |cpus|
    requires var heir := cpus[i].heir;
      && heir in rest && heir in tlist && heir !in Claimed(cpus, i)
      && Unclaimed(tlist, Claimed(cpus, i) + {heir}) == RemoveAt(rest, IndexOf(rest, heir))
    ensures Kept(cpus, tlist, i + 1, RemoveAt(rest, IndexOf(rest, cpus[i].heir)), kept + [cpus[i].heir])
  {
    var heir := cpus[i].heir;
    assert Claimed(cpus, i + 1) == Claimed(cpus, i) + {heir};
    assert heir !in kept;
  }

  /** One turn of the second loop of schedule, on CPU i, for the marks. */
  lemma {:induction false} MarkedStep(cpus: seq<CPU>, tlist: seq<Task>, i: nat, assmask: set<nat>, n: nat)
    requires Online(cpus) && Marked(cpus, tlist, i, assmask, n) && i < |cpus|
    ensures if cpus[i].heir in tlist then Marked(cpus, tlist, i + 1, assmask + {cpus[i].id}, n + 1)
      else Marked(cpus, tlist, i + 1, assmask, n)
  {
    if cpus[i].heir in tlist {
      FreeMark(cpus, assmask, i, 0);
      MarksHas(cpus, |cpus|, cpus[i].id);
      forall j | 0 <= j < |cpus| && j != i
        ensures cpus[j].id != cpus[i].id
      {
        assert Ids(cpus)[j] != Ids(cpus)[i];
      }
    }
  }

  /**
   * The second loop of schedule: a CPU whose heir is on tlist keeps it.
   * The heir leaves tlist and the CPU is marked in assmask; kept lists
   * these heirs in cpuonline order for Requeue, which enqueues them on
   * taskready in that order.  rest is what is left of tlist.
   */
  method Keep(cpus: seq<CPU>, tlist: seq<Task>) returns (rest: seq<Task>, kept: seq<Task>, assmask: set<nat>)
    requires Online(cpus) && Distinct(Heirs(cpus)) && Distinct(tlist)
    ensures KeepInv(cpus, tlist, |cpus|, rest, kept, assmask)
  {
    rest := tlist;
    kept := [];
    assmask := {};
    FreeNone(cpus, 0);
    UnclaimedNone(tlist);
    var i := 0;
    while i < |cpus|
      invariant Kept(cpus, tlist, i, rest, kept)
      invariant Marked(cpus, tlist, i, assmask, |kept|)
    {
      var heir := cpus[i].heir;
      KeptStep(cpus, tlist, i, rest, kept);
      MarkedStep(cpus, tlist, i, assmask, |kept|);
      var found := IsInList(rest, heir);
      if found {
        rest := RemoveAt(rest, IndexOf(rest, heir));
        kept := kept + [heir];
        assmask := assmask + {cpus[i].id};
      }
      i := i + 1;
    }
  }

  /** What the third loop of schedule has chosen after its first i turns. */
  ghost predicate PickInv(cpus: seq<CPU>, mask: set<nat>, n: nat, i: nat, done: seq<nat>, assmask: set<nat>) {
    && i <= |cpus| && Free(cpus, mask, 0) == done + Free(cpus, mask, i) && |done| <= n
    && (forall m :: 0 <= m < |done| ==> done[m] < i)
    && (forall j :: 0 <= j < |cpus| ==> (cpus[j].id in assmask <==> cpus[j].id in mask || j in done))
    && assmask <= mask + Marks(cpus, |cpus|)
  }

  /** A turn of the third loop of schedule on a CPU i already marked, which it skips. */
  lemma {:induction false} PickSkip(cpus: seq<CPU>, mask: set<nat>, n: nat, i: nat, done: seq<nat>, assmask: set<nat>)
    requires PickInv(cpus, mask, n, i, done, assmask) && i < |cpus| && cpus[i].id in assmask
    ensures PickInv(cpus, mask, n, i + 1, done, assmask)
  {
    assert i !in done;
    assert Free(cpus, mask, i) == Free(cpus, mask, i + 1);
  }

  /** A turn of the third loop of schedule on a CPU i not yet marked, which it chooses. */
  lemma {:induction false} PickTake(cpus: seq<CPU>, mask: set<nat>, n: nat, i: nat, done: seq<nat>, assmask: set<nat>)
    requires Online(cpus) && PickInv(cpus, mask, n, i, done, assmask) && i < |cpus|
    requires cpus[i].id !in assmask && |done| < n
    ensures PickInv(cpus, mask, n, i + 1, done + [i], assmask + {cpus[i].id})
  {
    FreeStep(cpus, mask, i, done);
    MarksHas(cpus, |cpus|, cpus[i].id);
    CpusDiffer(cpus, i);
  }

  /** A CPU i not in mask is the next free one after those of done. */
  lemma {:induction false} FreeStep(cpus: seq<CPU>, mask: set<nat>, i: nat, done: seq<nat>)
    requires i < |cpus| && cpus[i].id !in mask && Free(cpus, mask, 0) == done + Free(cpus, mask, i)
    ensures Free(cpus, mask, 0) == (done + [i]) + Free(cpus, mask, i + 1)
  {
    assert Free(cpus, mask, i) == [i] + Free(cpus, mask, i + 1);
  }

  /**
   * The choice the third loop of schedule makes: the CPUs not in mask, in
   * cpuonline order, until n tasks have a CPU (the loop breaks once tlist
   * is empty), by position in cpus, and the mask with them marked.
   */
  method Pick(cpus: seq<CPU>, mask: set<nat>, n: nat) returns (done: seq<nat>, assmask: set<nat>)
    requires Online(cpus) && n <= |Free(cpus, mask, 0)|
    ensures done == Free(cpus, mask, 0)[..n]
    ensures forall j :: 0 <= j < |cpus| ==> (cpus[j].id in assmask <==> cpus[j].id in mask || j in done)
    ensures assmask <= mask + Marks(cpus, |cpus|)
  {
    assmask := mask;
    done := [];
    var i := 0;
    while i < |cpus|
      invariant PickInv(cpus, mask, n, i, done, assmask)
    {
      if cpus[i].id in assmask {
        PickSkip(cpus, mask, n, i, done, assmask);
        i := i + 1;
        continue;
      }
      if |done| == n {
        break;
      }
      PickTake(cpus, mask, n, i, done, assmask);
      assmask := assmask + {cpus[i].id};
      done := done + [i];
      i := i + 1;
    }
    assert Free(cpus, mask, 0)[..n] == done;
  }

  /**
   * What the third loop of schedule does to the CPUs, from heirs h and
   * switch_needed flags n to h' and n': CPU done[m] gets heir rest[m] and
   * is told (switch_needed when it is local, an IPI in ipis otherwise);
   * every other CPU keeps its heir and flag.
   */
  predicate Handed(cpus: seq<CPU>, local: CPU?, done: seq<nat>, rest: seq<Task>,
                   h: seq<Task>, n: seq<bool>, h': seq<Task>, n': seq<bool>, ipis: seq<nat>) {
    && |h| == |cpus| && |n| == |cpus| && |h'| == |cpus| && |n'| == |cpus| && |done| == |rest|
    && (forall m :: 0 <= m < |done| ==> done[m] < |cpus|)
    && (forall m :: 0 <= m < |done| ==> h'[done[m]] == rest[m] && n'[done[m]] == (n[done[m]] || cpus[done[m]] == local))
    && (forall j :: 0 <= j < |cpus| && j !in done ==> h'[j] == h[j] && n'[j] == n[j])
    && (forall j :: 0 <= j < |cpus| ==> (cpus[j].id in ipis <==> j in done && cpus[j] != local))
  }

  /**
   * What the fourth loop of schedule does to the CPUs, from heirs h and
   * switch_needed flags n to h' and n': a CPU not in mask gets its idle
   * task as heir, and is told when that changes its heir; a CPU in mask
   * keeps its heir and flag.
   */
  predicate Idled(cpus: seq<CPU>, local: CPU?, mask: set<nat>,
                  h: seq<Task>, n: seq<bool>, h': seq<Task>, n': seq<bool>, ipis: seq<nat>) {
    && |h| == |cpus| && |n| == |cpus| && |h'| == |cpus| && |n'| == |cpus|
    && (forall j :: 0 <= j < |cpus| && cpus[j].id in mask ==> h'[j] == h[j] && n'[j] == n[j])
    && (forall j :: 0 <= j < |cpus| && cpus[j].id !in mask ==>
          h'[j] == cpus[j].idle && n'[j] == (n[j] || (h[j] != cpus[j].idle && cpus[j] == local)))
    && (forall j :: 0 <= j < |cpus| ==> (cpus[j].id in ipis <==> cpus[j].id !in mask && h[j] != cpus[j].idle && cpus[j] != local))
  }

  /**
   * The setheir calls of the third loop of schedule: the CPU at done[m]
   * gets rest[m] as heir.  ipis lists, in order, the CPUs other than local
   * that are sent an IPI.
   */
  method Apply(cpus: seq<CPU>, done: seq<nat>, rest: seq<Task>, local: CPU?) returns (ipis: seq<nat>)
    requires Online(cpus) && |done| == |rest|
    requires forall m :: 0 <= m < |done| ==> done[m] < |cpus|
    requires forall a, b :: 0 <= a < b < |done| ==> done[a] < done[b]
    modifies cpus`heir, cpus`switch_needed
    ensures forall m :: 0 <= m < |done| ==>
      && cpus[done[m]].heir == rest[m]
      && cpus[done[m]].switch_needed == (old(cpus[done[m]].switch_needed) || cpus[done[m]] == local)
    ensures forall j :: 0 <= j < |cpus| && j !in done ==>
      cpus[j].heir == old(cpus[j].heir) && cpus[j].switch_needed == old(cpus[j].switch_needed)
    ensures forall j :: 0 <= j < |cpus| ==> (cpus[j].id in ipis <==> j in done && cpus[j] != local)
  {
    ghost var h0, n0 := Heirs(cpus), Needs(cpus);
    ipis := [];
    var m := 0;
    while m < |done|
      invariant m <= |done|
      invariant forall q :: 0 <= q < m ==>
        && cpus[done[q]].heir == rest[q]
        && cpus[done[q]].switch_needed == (n0[done[q]] || cpus[done[q]] == local)
      invariant forall j :: 0 <= j < |cpus| && j !in done[..m] ==>
        cpus[j].heir == h0[j] && cpus[j].switch_needed == n0[j]
      invariant forall j :: 0 <= j < |cpus| ==> (cpus[j].id in ipis <==> j in done[..m] && cpus[j] != local)
    {
      var i := done[m];
      assert done[..m + 1] == done[..m] + [i];
      CpusDiffer(cpus, i);
      var ipi := SetHeir(cpus[i], rest[m], local);
      if ipi {
        ipis := ipis + [cpus[i].id];
      }
      m := m + 1;
    }
    assert done[..m] == done;
  }

  /** The mask of the fourth loop of schedule after its first i turns. */
  ghost predicate IdleMask(cpus: seq<CPU>, mask: set<nat>, i: nat, assmask: set<nat>) {
    && i <= |cpus| && assmask == mask + Marks(cpus, i)
    && (forall j :: 0 <= j < |cpus| ==> (cpus[j].id in assmask <==> cpus[j].id in mask || j < i))
  }

  /** A turn of the fourth loop of schedule marks CPU i, which was marked before only if in mask. */
  lemma {:induction false} IdleMaskStep(cpus: seq<CPU>, mask: set<nat>, i: nat, assmask: set<nat>)
    requires Online(cpus) && IdleMask(cpus, mask, i, assmask) && i < |cpus|
    ensures cpus[i].id in assmask <==> cpus[i].id in mask
    ensures cpus[i].id in mask ==> IdleMask(cpus, mask, i + 1, assmask)
    ensures cpus[i].id !in mask ==> IdleMask(cpus, mask, i + 1, assmask + {cpus[i].id})
  {
    CpusDiffer(cpus, i);
    assert cpus[i].id in mask ==> assmask + {cpus[i].id} == assmask;
  }

  /** The CPUs other than the one at i have other numbers, so they are other CPUs. */
  lemma {:induction false} CpusDiffer(cpus: seq<CPU>, i: nat)
    requires Online(cpus) && i < |cpus|
    ensures forall j :: 0 <= j < |cpus| && j != i ==> cpus[j].id != cpus[i].id && cpus[j] != cpus[i]
  {
    forall j | 0 <= j < |cpus| && j != i
      ensures cpus[j].id != cpus[i].id
    {
      assert Ids(cpus)[j] != Ids(cpus)[i];
    }
  }

  /**
   * The fourth loop of schedule: every CPU not in mask gets its own idle
   * task as heir, through setheir unless that is its heir already.  All
   * online CPUs are then marked.
   */
  method Idle(cpus: seq<CPU>, mask: set<nat>, local: CPU?) returns (assmask: set<nat>, ipis: seq<nat>)
    requires Online(cpus)
    modifies cpus`heir, cpus`switch_needed
    ensures assmask == mask + Marks(cpus, |cpus|)
    ensures forall j :: 0 <= j < |cpus| && cpus[j].id in mask ==>
      cpus[j].heir == old(cpus[j].heir) && cpus[j].switch_needed == old(cpus[j].switch_needed)
    ensures forall j :: 0 <= j < |cpus| && cpus[j].id !in mask ==>
      && cpus[j].heir == cpus[j].idle
      && cpus[j].switch_needed == (old(cpus[j].switch_needed) || (old(cpus[j].heir) != cpus[j].idle && cpus[j] == local))
    ensures forall j :: 0 <= j < |cpus| ==>
      (cpus[j].id in ipis <==> cpus[j].id !in mask && old(cpus[j].heir) != cpus[j].idle && cpus[j] != local)
  {
    assmask := mask;
    ipis := [];
    var i := 0;
    while i < |cpus|
      invariant IdleMask(cpus, mask, i, assmask)
      invariant forall j :: 0 <= j < |cpus| && (i <= j || cpus[j].id in mask) ==>
        cpus[j].heir == old(cpus[j].heir) && cpus[j].switch_needed == old(cpus[j].switch_needed)
      invariant forall j :: 0 <= j < i && cpus[j].id !in mask ==>
        && cpus[j].heir == cpus[j].idle
        && cpus[j].switch_needed == (old(cpus[j].switch_needed) || (old(cpus[j].heir) != cpus[j].idle && cpus[j] == local))
      invariant forall j :: 0 <= j < |cpus| ==>
        (cpus[j].id in ipis <==> j < i && cpus[j].id !in mask && old(cpus[j].heir) != cpus[j].idle && cpus[j] != local)
    {
      var cpu := cpus[i];
      IdleMaskStep(cpus, mask, i, assmask);
      CpusDiffer(cpus, i);
      if cpu.id !in assmask {
        if cpu.heir != cpu.idle {
          var ipi := SetHeir(cpu, cpu.idle, local);
          if ipi {
            ipis := ipis + [cpu.id];
          }
        }
        assmask := assmask + {cpu.id};
      }
      i := i + 1;
    }
  }

  /** The third loop of schedule (Apply) stated on the heirs and flags before and after it. */
  method HandOut(cpus: seq<CPU>, done: seq<nat>, rest: seq<Task>, local: CPU?) returns (ipis: seq<nat>)
    requires Online(cpus) && |done| == |rest|
    requires forall m :: 0 <= m < |done| ==> done[m] < |cpus|
    requires forall a, b :: 0 <= a < b < |done| ==> done[a] < done[b]
    modifies cpus`heir, cpus`switch_needed
    ensures Handed(cpus, local, done, rest, old(Heirs(cpus)), old(Needs(cpus)), Heirs(cpus), Needs(cpus), ipis)
  {
    ghost var h0 := Heirs(cpus);
    ghost var n0 := Needs(cpus);
    ipis := Apply(cpus, done, rest, local);
    assert Handed(cpus, local, done, rest, h0, n0, Heirs(cpus), Needs(cpus), ipis);
  }

  /** The fourth loop of schedule (Idle) stated on the heirs and flags before and after it. */
  method IdleOut(cpus: seq<CPU>, mask: set<nat>, local: CPU?) returns (assmask: set<nat>, ipis: seq<nat>)
    requires Online(cpus)
    modifies cpus`heir, cpus`switch_needed
    ensures assmask == mask + Marks(cpus, |cpus|)
    ensures Idled(cpus, local, mask, old(Heirs(cpus)), old(Needs(cpus)), Heirs(cpus), Needs(cpus), ipis)
  {
    ghost var h0 := Heirs(cpus);
    ghost var n0 := Needs(cpus);
    assmask, ipis := Idle(cpus, mask, local);
    assert Idled(cpus, local, mask, h0, n0, Heirs(cpus), Needs(cpus), ipis);
  }

  // ---------------------------------------------------------------------
  // The heirs schedule gives
  // ---------------------------------------------------------------------

  /** The tasks that are heirs in hs. */
  function Elems(hs: seq<Task>): set<Task> {
    set t | t in hs
  }

  /** The numbers of the CPUs whose heirs in hs are on tlist: those the second loop of schedule marks. */
  function KeptIds(cpus: seq<CPU>, hs: seq<Task>, tlist: seq<Task>): set<nat>
    requires |hs| == |cpus|
  {
    set j | 0 <= j < |cpus| && hs[j] in tlist :: cpus[j].id
  }

  /**
   * The heir schedule gives CPU j when the heirs are hs and its first loop
   * takes the tasks tlist off taskready, as the design comment above
   * isinlist lays out in three steps: a CPU whose heir is on tlist keeps
   * it; the other tasks of tlist go, in order, to the other CPUs in
   * cpuonline order; a CPU left over gets its idle task.
   */
  function Assigned(cpus: seq<CPU>, hs: seq<Task>, tlist: seq<Task>, j: nat): Task
    requires |hs| == |cpus| && j < |cpus|
  {
    var rest := Unclaimed(tlist, Elems(hs));
    var free := Free(cpus, KeptIds(cpus, hs, tlist), 0);
    if hs[j] in tlist then hs[j]
    else if j in free && IndexOf(free, j) < |rest| then rest[IndexOf(free, j)]
    else cpus[j].idle
  }

  /** The heirs schedule gives all the CPUs, in cpuonline order. */
  function Plan(cpus: seq<CPU>, hs: seq<Task>, tlist: seq<Task>): (r: seq<Task>)
    requires |hs| == |cpus|
    ensures |r| == |cpus| && forall j :: 0 <= j < |cpus| ==> r[j] == Assigned(cpus, hs, tlist, j)
  {
    seq(|cpus|, j requires 0 <= j < |cpus| => Assigned(cpus, hs, tlist, j))
  }

  /** No task is left twice by Unclaimed when ts has no repeats. */
  lemma {:induction false} UnclaimedDistinct(ts: seq<Task>, claimed: set<Task>)
    requires Distinct(ts)
    ensures Distinct(Unclaimed(ts, claimed))
  {
    if ts != [] {
      DistinctTail(ts);
      UnclaimedDistinct(ts[1..], claimed);
      UnclaimedHas(ts[1..], claimed, ts[0]);
    }
  }

  /** A CPU is marked in KeptIds exactly when its own heir is on tlist. */
  lemma {:induction false} KeptIdsHas(cpus: seq<CPU>, hs: seq<Task>, tlist: seq<Task>)
    requires Online(cpus) && |hs| == |cpus|
    ensures forall j :: 0 <= j < |cpus| ==> (cpus[j].id in KeptIds(cpus, hs, tlist) <==> hs[j] in tlist)
  {
    forall j | 0 <= j < |cpus| && cpus[j].id in KeptIds(cpus, hs, tlist)
      ensures hs[j] in tlist
    {
      var c :| 0 <= c < |cpus| && hs[c] in tlist && cpus[c].id == cpus[j].id;
      CpusDiffer(cpus, j);
    }
  }

  /**
   * Every heir of the plan is a task of tlist or the CPU's own idle task,
   * and a CPU whose heir is on tlist keeps it.
   */
  lemma {:induction false} PlanFrom(cpus: seq<CPU>, hs: seq<Task>, tlist: seq<Task>)
    requires |hs| == |cpus|
    ensures forall j :: 0 <= j < |cpus| ==> Plan(cpus, hs, tlist)[j] in tlist || Plan(cpus, hs, tlist)[j] == cpus[j].idle
    ensures forall j :: 0 <= j < |cpus| && hs[j] in tlist ==> Plan(cpus, hs, tlist)[j] == hs[j]
  {
    var rest := Unclaimed(tlist, Elems(hs));
    forall x | 0 <= x < |rest|
      ensures rest[x] in tlist
    {
      UnclaimedHas(tlist, Elems(hs), rest[x]);
    }
  }

  /**
   * What the heir of CPU j is, case by case: a kept heir, a task of tlist
   * that was nobody's heir, or the CPU's idle task.
   */
  lemma {:induction false} AssignedIs(cpus: seq<CPU>, hs: seq<Task>, tlist: seq<Task>, j: nat)
    requires |hs| == |cpus| && j < |cpus|
    ensures var h := Assigned(cpus, hs, tlist, j);
      || (hs[j] in tlist && h == hs[j])
      || (hs[j] !in tlist && h in tlist && h !in hs
          && exists x :: 0 <= x < |Unclaimed(tlist, Elems(hs))| && x < |Free(cpus, KeptIds(cpus, hs, tlist), 0)|
               && h == Unclaimed(tlist, Elems(hs))[x] && Free(cpus, KeptIds(cpus, hs, tlist), 0)[x] == j)
      || h == cpus[j].idle
  {
    var rest := Unclaimed(tlist, Elems(hs));
    var free := Free(cpus, KeptIds(cpus, hs, tlist), 0);
    if hs[j] !in tlist && j in free && IndexOf(free, j) < |rest| {
      var x := IndexOf(free, j);
      UnclaimedHas(tlist, Elems(hs), rest[x]);
    }
  }

  /** Two CPUs get different heirs in the plan. */
  lemma {:induction false} AssignedDiffer(cpus: seq<CPU>, hs: seq<Task>, tlist: seq<Task>, a: nat, b: nat)
    requires Online(cpus) && |hs| == |cpus| && Distinct(hs)
    requires Distinct(Unclaimed(tlist, Elems(hs)))
    requires Apart(cpus, tlist)
    requires a < b < |cpus|
    ensures Assigned(cpus, hs, tlist, a) != Assigned(cpus, hs, tlist, b)
  {
    AssignedIs(cpus, hs, tlist, a);
    AssignedIs(cpus, hs, tlist, b);
  }

  /**
   * No task is heir of two CPUs in the plan (the property the design
   * comment calls important), when none was in hs, tlist has no repeats
   * and no idle task, and the CPUs' idle tasks are distinct and idle.
   */
  lemma {:induction false} PlanDistinct(cpus: seq<CPU>, hs: seq<Task>, tlist: seq<Task>)
    requires Online(cpus) && |hs| == |cpus| && Distinct(hs) && Distinct(tlist)
    requires Apart(cpus, tlist)
    ensures Distinct(Plan(cpus, hs, tlist))
  {
    UnclaimedDistinct(tlist, Elems(hs));
    forall a, b | 0 <= a < b < |cpus|
      ensures Plan(cpus, hs, tlist)[a] != Plan(cpus, hs, tlist)[b]
    {
      AssignedDiffer(cpus, hs, tlist, a, b);
    }
  }

  /**
   * Every task of tlist is heir of some CPU in the plan, when there are
   * as many CPUs whose heirs are not on tlist as tasks of tlist that are
   * nobody's heir (schedule's third loop leaves tlist empty).
   */
  lemma {:induction false} PlanCovers(cpus: seq<CPU>, hs: seq<Task>, tlist: seq<Task>)
    requires |hs| == |cpus|
    requires |Unclaimed(tlist, Elems(hs))| <= |Free(cpus, KeptIds(cpus, hs, tlist), 0)|
    ensures forall t :: t in tlist ==> t in Plan(cpus, hs, tlist)
  {
    var r := Plan(cpus, hs, tlist);
    var rest := Unclaimed(tlist, Elems(hs));
    var free := Free(cpus, KeptIds(cpus, hs, tlist), 0);
    forall t | t in tlist
      ensures t in r
    {
      UnclaimedHas(tlist, Elems(hs), t);
      if t in Elems(hs) {
        var j :| 0 <= j < |hs| && hs[j] == t;
        assert r[j] == t;
      } else {
        var x := IndexOf(rest, t);
        var j := free[x];
        assert IndexOf(free, j) == x;
        forall i | 0 <= i < |cpus| && hs[i] in tlist
          ensures cpus[i].id in KeptIds(cpus, hs, tlist)
        {
        }
        assert r[j] == t;
      }
    }
  }

  /** iEnqueue of each task of ts on taskready, in order. */
  method Requeue(k: Kernel, ts: seq<Task>)
    requires k.Valid() && Distinct(ts)
    requires forall t :: t in ts ==> !k.Known(t) && t.state == TS_READY
    modifies k`taskready
    ensures k.Valid()
    ensures forall x :: x in k.taskready <==> x in old(k.taskready) || x in ts
  {
    var i := 0;
    while i < |ts|
      invariant i <= |ts| && k.Valid()
      invariant forall x :: x in k.taskready <==> x in old(k.taskready) || x in ts[..i]
      invariant forall j :: i <= j < |ts| ==> !k.Known(ts[j])
    {
      assert ts[..i + 1] == ts[..i] + [ts[i]];
      k.EnqueueReady(ts[i]);
      i := i + 1;
    }
    assert ts[..i] == ts;
  }

  /** Free depends on mask only through the CPU numbers it holds. */
  lemma {:induction false} FreeSame(cpus: seq<CPU>, m1: set<nat>, m2: set<nat>, s: nat)
    requires forall j :: 0 <= j < |cpus| ==> (cpus[j].id in m1 <==> cpus[j].id in m2)
    ensures Free(cpus, m1, s) == Free(cpus, m2, s)
    decreases |cpus| - s
  {
    if s < |cpus| {
      FreeSame(cpus, m1, m2, s + 1);
    }
  }

  /** The claimed tasks after all CPUs are the heirs. */
  lemma {:induction false} ClaimedAll(cpus: seq<CPU>)
    ensures Claimed(cpus, |cpus|) == Elems(Heirs(cpus))
  {
    ClaimedPrefix(cpus, |cpus|);
    assert Heirs(cpus)[..|cpus|] == Heirs(cpus);
  }

  /** The claimed tasks after the first i CPUs are the first i heirs. */
  lemma {:induction false} ClaimedPrefix(cpus: seq<CPU>, i: nat)
    requires i <= |cpus|
    ensures Claimed(cpus, i) == Elems(Heirs(cpus)[..i])
  {
    if i > 0 {
      ClaimedPrefix(cpus, i - 1);
      assert Heirs(cpus)[..i] == Heirs(cpus)[..i - 1] + [cpus[i - 1].heir];
    }
  }

  /**
   * What the second loop of schedule leaves, for the loops after it: the
   * marked CPUs are those whose heirs are on tlist, rest is the tasks of
   * tlist that are nobody's heir, and there are CPUs enough for them.
   */
  lemma {:induction false} KeepDone(cpus: seq<CPU>, hs: seq<Task>, tlist: seq<Task>, rest: seq<Task>, kept: seq<Task>, mask: set<nat>)
    requires Online(cpus) && Distinct(tlist) && |tlist| <= |cpus| && hs == Heirs(cpus)
    requires KeepInv(cpus, tlist, |cpus|, rest, kept, mask)
    ensures rest == Unclaimed(tlist, Elems(hs)) && Distinct(rest)
    ensures forall j :: 0 <= j < |cpus| ==> (cpus[j].id in mask <==> hs[j] in tlist)
    ensures |rest| <= |Free(cpus, mask, 0)| && mask <= Marks(cpus, |cpus|)
    ensures forall t :: t in tlist <==> t in kept || t in rest
    ensures forall t :: t in rest ==> t !in kept
  {
    ClaimedAll(cpus);
    UnclaimedDistinct(tlist, Elems(hs));
    forall t
      ensures (t in tlist <==> t in kept || t in rest) && (t in rest ==> t !in kept)
    {
      UnclaimedHas(tlist, Claimed(cpus, |cpus|), t);
    }
  }

  /**
   * The heirs after the last two loops of schedule are the plan, from
   * what each loop states: h0 before them, h1 after the third and h2
   * after the fourth.  A CPU given a task of rest changes heir.
   */
  lemma {:induction false} ComposeHeirs(cpus: seq<CPU>, local: CPU?, tlist: seq<Task>, mask: set<nat>, rest: seq<Task>,
                                        done: seq<nat>, mask2: set<nat>, h0: seq<Task>, h1: seq<Task>, h2: seq<Task>,
                                        n0: seq<bool>, n1: seq<bool>, n2: seq<bool>, ipis1: seq<nat>, ipis2: seq<nat>)
    requires Online(cpus)
    requires Handed(cpus, local, done, rest, h0, n0, h1, n1, ipis1)
    requires Idled(cpus, local, mask2, h1, n1, h2, n2, ipis2)
    requires forall j :: 0 <= j < |cpus| ==> (cpus[j].id in mask <==> h0[j] in tlist)
    requires rest == Unclaimed(tlist, Elems(h0))
    requires |rest| <= |Free(cpus, mask, 0)| && done == Free(cpus, mask, 0)[..|rest|]
    requires forall j :: 0 <= j < |cpus| ==> (cpus[j].id in mask2 <==> cpus[j].id in mask || j in done)
    ensures h2 == Plan(cpus, h0, tlist)
    ensures forall j :: 0 <= j < |cpus| && j in done ==> h2[j] != h0[j]
  {
    KeptIdsHas(cpus, h0, tlist);
    FreeSame(cpus, mask, KeptIds(cpus, h0, tlist), 0);
    var free := Free(cpus, mask, 0);
    forall j | 0 <= j < |cpus|
      ensures h2[j] == Assigned(cpus, h0, tlist, j) && (j in done ==> h2[j] != h0[j])
    {
      ComposeAt(cpus, tlist, h0, free, rest, done, j, h1[j], h2[j], cpus[j].id in mask2);
    }
  }

  /** ComposeHeirs for CPU j: h1j and h2j are its heirs after the third and fourth loops. */
  lemma {:induction false} ComposeAt(cpus: seq<CPU>, tlist: seq<Task>, h0: seq<Task>, free: seq<nat>, rest: seq<Task>,
                                     done: seq<nat>, j: nat, h1j: Task, h2j: Task, marked: bool)
    requires |h0| == |cpus| && j < |cpus|
    requires free == Free(cpus, KeptIds(cpus, h0, tlist), 0) && rest == Unclaimed(tlist, Elems(h0))
    requires |rest| <= |free| && done == free[..|rest|]
    requires cpus[j].id in KeptIds(cpus, h0, tlist) <==> h0[j] in tlist
    requires forall m :: 0 <= m < |done| && done[m] == j ==> h1j == rest[m]
    requires j !in done ==> h1j == h0[j]
    requires marked <==> h0[j] in tlist || j in done
    requires marked ==> h2j == h1j
    requires !marked ==> h2j == cpus[j].idle
    ensures h2j == Assigned(cpus, h0, tlist, j) && (j in done ==> h2j != h0[j])
  {
    if h0[j] in tlist {
      assert j !in free;
      assert h2j == h0[j];
    } else if j in done {
      var m :| 0 <= m < |done| && done[m] == j;
      assert free[m] == j;
      assert IndexOf(free, j) == m;
      UnclaimedHas(tlist, Elems(h0), rest[m]);
      assert h0[j] in Elems(h0);
    } else if j in free {
      assert free[IndexOf(free, j)] == j;
    }
  }

  /**
   * How schedule tells the CPUs, from the heirs h0 and flags n0 before to
   * h and n after: a CPU whose heir changed is told so, the local one by
   * setting its switch_needed, every other one by an IPI (its number in
   * ipis); the flags of the others stay as they were.
   */
  predicate Told(cpus: seq<CPU>, local: CPU?, h0: seq<Task>, h: seq<Task>, n0: seq<bool>, n: seq<bool>, ipis: seq<nat>) {
    && |h0| == |cpus| && |h| == |cpus| && |n0| == |cpus| && |n| == |cpus|
    && (forall j :: 0 <= j < |cpus| ==> n[j] == (n0[j] || (cpus[j] == local && h[j] != h0[j])))
    && (forall j :: 0 <= j < |cpus| ==> (cpus[j].id in ipis <==> cpus[j] != local && h[j] != h0[j]))
  }

  /**
   * The switch_needed flags and the IPIs after the last two loops of
   * schedule, from what each loop states: a CPU whose heir changed is
   * told so, the local one by switch_needed, the others by an IPI.
   */
  lemma {:induction false} ComposeFlags(cpus: seq<CPU>, local: CPU?, rest: seq<Task>, done: seq<nat>, mask2: set<nat>,
                                        h0: seq<Task>, h1: seq<Task>, h2: seq<Task>,
                                        n0: seq<bool>, n1: seq<bool>, n2: seq<bool>, ipis1: seq<nat>, ipis2: seq<nat>)
    requires Handed(cpus, local, done, rest, h0, n0, h1, n1, ipis1)
    requires Idled(cpus, local, mask2, h1, n1, h2, n2, ipis2)
    requires forall j :: 0 <= j < |cpus| && j in done ==> cpus[j].id in mask2 && h2[j] != h0[j]
    ensures Told(cpus, local, h0, h2, n0, n2, ipis1 + ipis2)
  {
    forall j | 0 <= j < |cpus| && j in done
      ensures n1[j] == (n0[j] || cpus[j] == local)
    {
      var m :| 0 <= m < |done| && done[m] == j;
    }
  }

  /**
   * What the first two loops of schedule hand to the last two, for the
   * heirs hs: tlist has no repeats and no idle task, mask holds the CPUs
   * whose heir is on tlist, rest the tasks of tlist that are nobody's
   * heir, and there are at least as many unmarked CPUs as tasks in rest.
   */
  predicate Divided(cpus: seq<CPU>, hs: seq<Task>, tlist: seq<Task>, rest: seq<Task>, mask: set<nat>) {
    && |hs| == |cpus| && Distinct(tlist) && Apart(cpus, tlist)
    && mask <= Marks(cpus, |cpus|)
    && rest == Unclaimed(tlist, Elems(hs))
    && (forall j :: 0 <= j < |cpus| ==> (cpus[j].id in mask <==> hs[j] in tlist))
    && |rest| <= |Free(cpus, mask, 0)|
  }

  /**
   * What the first two loops hand over leaves enough CPUs free for the
   * tasks nobody runs, counted as Plan counts them.
   */
  lemma {:induction false} DividedCount(cpus: seq<CPU>, hs: seq<Task>, tlist: seq<Task>, rest: seq<Task>, mask: set<nat>)
    requires Online(cpus) && Divided(cpus, hs, tlist, rest, mask)
    ensures |Unclaimed(tlist, Elems(hs))| <= |Free(cpus, KeptIds(cpus, hs, tlist), 0)|
  {
    KeptIdsHas(cpus, hs, tlist);
    FreeSame(cpus, mask, KeptIds(cpus, hs, tlist), 0);
  }

  /**
   * The second loop of schedule run on tlist once the first has taken it
   * off taskready: the lists of k are only read, and Keep's result gives
   * the split of tlist into kept and rest that Requeue puts back.
   */
  method Divide(k: Kernel, cpus: seq<CPU>, tlist: seq<Task>) returns (rest: seq<Task>, kept: seq<Task>, mask: set<nat>)
    requires k.Valid() && Online(cpus) && Parked(k, cpus) && Distinct(Heirs(cpus))
    requires Distinct(tlist) && Apart(cpus, tlist) && |tlist| <= |cpus|
    requires forall t :: t in tlist ==> !k.Known(t) && t.state == TS_READY
    ensures k.Valid() && Parked(k, cpus)
    ensures forall t :: t in tlist ==> !k.Known(t) && t.state == TS_READY
    ensures Distinct(kept) && Distinct(rest)
    ensures forall t :: t in tlist <==> t in kept || t in rest
    ensures forall t :: t in rest ==> t !in kept
    ensures Divided(cpus, Heirs(cpus), tlist, rest, mask)
  {
    rest, kept, mask := Keep(cpus, tlist);
    KeepDone(cpus, Heirs(cpus), tlist, rest, kept, mask);
  }

  /**
   * The first two loops of schedule: tlist comes off the head of
   * taskready (Gather), and the CPUs whose heirs are on it are found
   * (Divide); kept holds those heirs, rest the tasks of tlist no CPU runs.
   */
  method Take(k: Kernel, cpus: seq<CPU>) returns (tlist: seq<Task>, rest: seq<Task>, kept: seq<Task>, mask: set<nat>, allmask: set<nat>)
    requires k.Valid() && Online(cpus) && Parked(k, cpus) && Distinct(Heirs(cpus))
    modifies k`taskready
    ensures k.Valid() && Parked(k, cpus)
    ensures old(k.taskready) == tlist + k.taskready
    ensures |tlist| == old(Lead(k.taskready, |cpus|))
    ensures forall t :: t in tlist ==> !k.Known(t) && t.state == TS_READY
    ensures Distinct(kept) && Distinct(rest)
    ensures forall t :: t in tlist <==> t in kept || t in rest
    ensures forall t :: t in rest ==> t !in kept
    ensures allmask == Marks(cpus, |cpus|)
    ensures Divided(cpus, old(Heirs(cpus)), tlist, rest, mask)
  {
    ghost var h0 := Heirs(cpus);
    tlist, allmask := Gather(k, cpus);
    assert Heirs(cpus) == h0;
    DistinctSplit(tlist, k.taskready);
    rest, kept, mask := Divide(k, cpus, tlist);
    assert Heirs(cpus) == h0;
  }

  /**
   * The task side of schedule: Take, then every task of tlist goes back
   * on taskready by iEnqueue, those kept first, in the order the second
   * and third loops enqueue them.  The CPUs are not changed; rest is what
   * the third loop hands out.
   */
  method Sort(k: Kernel, cpus: seq<CPU>) returns (tlist: seq<Task>, rest: seq<Task>, mask: set<nat>, allmask: set<nat>)
    requires k.Valid() && Online(cpus) && Parked(k, cpus) && Distinct(Heirs(cpus))
    modifies k`taskready
    ensures k.Valid() && Parked(k, cpus)
    ensures forall x :: x in k.taskready <==> x in old(k.taskready)
    ensures tlist == old(k.taskready[..Lead(k.taskready, |cpus|)])
    ensures allmask == Marks(cpus, |cpus|)
    ensures Divided(cpus, old(Heirs(cpus)), tlist, rest, mask)
  {
    ghost var r0 := k.taskready;
    var kept;
    tlist, rest, kept, mask, allmask := Take(k, cpus);
    assert tlist == r0[..|tlist|];
    ghost var r1 := k.taskready;
    PutBack(k, cpus, tlist, kept, rest);
    assert forall x :: x in old(k.taskready) <==> x in tlist || x in r1;
  }



  /** The idle tasks stay parked while tasks are only added to taskready. */
  lemma {:induction false} ParkedGrow(k: Kernel, cpus: seq<CPU>, before: seq<Task>)
    requires forall i :: 0 <= i < |cpus| ==> cpus[i].idle in before && cpus[i].idle.pri == TASK_PRI_IDLE
    requires forall x :: x in before ==> x in k.taskready
    ensures Parked(k, cpus)
  {
  }

  /**
   * The iEnqueue calls of the second and third loops of schedule: the
   * kept heirs, then the tasks handed out, so that every task of tlist is
   * back on taskready.
   */
  method PutBack(k: Kernel, cpus: seq<CPU>, tlist: seq<Task>, kept: seq<Task>, rest: seq<Task>)
    requires k.Valid() && Parked(k, cpus) && Distinct(kept) && Distinct(rest)
    requires forall t :: t in tlist ==> !k.Known(t) && t.state == TS_READY
    requires forall t :: t in tlist <==> t in kept || t in rest
    requires forall t :: t in rest ==> t !in kept
    modifies k`taskready
    ensures k.Valid() && Parked(k, cpus)
    ensures forall x :: x in k.taskready <==> x in old(k.taskready) || x in tlist
  {
    ghost var r0 := k.taskready;
    Requeue(k, kept);
    forall t | t in rest
      ensures !k.Known(t) && t.state == TS_READY
    {
      assert t in tlist && t !in kept;
    }
    Requeue(k, rest);
    ParkedGrow(k, cpus, r0);
  }

  /**
   * The CPU side of schedule: the third loop hands rest out to the CPUs
   * not in mask and the fourth gives the others their idle tasks, so the
   * heirs become the plan; the KASSERTs that tlist ends empty and that
   * assmask ends equal to allmask hold.
   */
  method Assign(cpus: seq<CPU>, tlist: seq<Task>, rest: seq<Task>, mask: set<nat>, allmask: set<nat>, local: CPU?)
    returns (ipis: seq<nat>)
    requires Online(cpus) && Distinct(Heirs(cpus))
    requires allmask == Marks(cpus, |cpus|)
    requires Divided(cpus, Heirs(cpus), tlist, rest, mask)
    modifies cpus`heir, cpus`switch_needed
    ensures Heirs(cpus) == Plan(cpus, old(Heirs(cpus)), tlist) && Distinct(Heirs(cpus))
    ensures forall t :: t in tlist ==> t in Heirs(cpus)
    ensures Told(cpus, local, old(Heirs(cpus)), Heirs(cpus), old(Needs(cpus)), Needs(cpus), ipis)
  {
    ghost var h0 := Heirs(cpus);
    ghost var n0 := Needs(cpus);
    var done, mask2 := Pick(cpus, mask, |rest|);
    assert Heirs(cpus) == h0 && Needs(cpus) == n0;
    var ipis1 := HandOut(cpus, done, rest, local);
    ghost var h1 := Heirs(cpus);
    ghost var n1 := Needs(cpus);
    var mask3, ipis2 := IdleOut(cpus, mask2, local);
    assert mask3 == allmask;
    ipis := ipis1 + ipis2;
    ghost var h2 := Heirs(cpus);
    ghost var n2 := Needs(cpus);
    ComposeHeirs(cpus, local, tlist, mask, rest, done, mask2, h0, h1, h2, n0, n1, n2, ipis1, ipis2);
    ComposeFlags(cpus, local, rest, done, mask2, h0, h1, h2, n0, n1, n2, ipis1, ipis2);
    PlanDistinct(cpus, h0, tlist);
    DividedCount(cpus, h0, tlist, rest, mask);
    PlanCovers(cpus, h0, tlist);
  }

  /** Assign, which changes only the CPUs: the kernel k stays valid with its idle tasks parked. */
  method AssignUnder(k: Kernel, cpus: seq<CPU>, tlist: seq<Task>, rest: seq<Task>, mask: set<nat>, allmask: set<nat>, local: CPU?)
    returns (ipis: seq<nat>)
    requires k.Valid() && Parked(k, cpus)
    requires Online(cpus) && Distinct(Heirs(cpus))
    requires allmask == Marks(cpus, |cpus|)
    requires Divided(cpus, Heirs(cpus), tlist, rest, mask)
    modifies cpus`heir, cpus`switch_needed
    ensures k.Valid() && Parked(k, cpus)
    ensures Heirs(cpus) == Plan(cpus, old(Heirs(cpus)), tlist) && Distinct(Heirs(cpus))
    ensures forall t :: t in tlist ==> t in Heirs(cpus)
    ensures Told(cpus, local, old(Heirs(cpus)), Heirs(cpus), old(Needs(cpus)), Needs(cpus), ipis)
  {
    ipis := Assign(cpus, tlist, rest, mask, allmask, local);
  }

  /**
   * schedule, run by the CPU local under the task lock: every online CPU
   * gets its heir as Plan states, and a CPU whose heir changed is told,
   * by switch_needed when it is local and by an IPI (its number in ipis)
   * otherwise.  taskready holds the same tasks as before, and no task is
   * heir of two CPUs.
   */
  method Schedule(k: Kernel, cpus: seq<CPU>, local: CPU?) returns (ipis: seq<nat>)
    requires k.Valid() && Online(cpus) && Parked(k, cpus) && Distinct(Heirs(cpus))
    modifies k`taskready, cpus`heir, cpus`switch_needed
    ensures k.Valid()
    ensures Parked(k, cpus) && Distinct(Heirs(cpus))
    ensures forall x :: x in k.taskready <==> x in old(k.taskready)
    ensures Heirs(cpus) == Plan(cpus, old(Heirs(cpus)), old(k.taskready[..Lead(k.taskready, |cpus|)]))
    ensures forall t :: t in old(k.taskready[..Lead(k.taskready, |cpus|)]) ==> t in Heirs(cpus)
    ensures Told(cpus, local, old(Heirs(cpus)), Heirs(cpus), old(Needs(cpus)), Needs(cpus), ipis)
  {
    ghost var h0, n0 := Heirs(cpus), Needs(cpus);
    var tlist, rest, mask, allmask := Sort(k, cpus);
    assert Heirs(cpus) == h0 && Needs(cpus) == n0;
    ghost var r1 := k.taskready;
    ipis := AssignUnder(k, cpus, tlist, rest, mask, allmask, local);
    assert k.taskready == r1;
  }

  // ---------------------------------------------------------------------
  // findcpu, checkstack and the removing slot of switch_tasks
  // ---------------------------------------------------------------------

  /**
   * findcpu: the first CPU of the list offline (cpuoffline, in list
   * order) whose number is id, or null when none has it.
   */
  method FindCpu(offline: seq<CPU>, id: nat) returns (cpu: CPU?)
    ensures cpu == null <==> id !in Ids(offline)
    ensures cpu != null ==> cpu == offline[IndexOf(Ids(offline), id)]
  {
    var i := 0;
    while i < |offline|
      invariant i <= |offline| && id !in Ids(offline)[..i]
    {
      if offline[i].id == id {
        assert Ids(offline)[i] == id;
        IndexOfAt(Ids(offline), i);
        return offline[i];
      }
      assert Ids(offline)[..i + 1] == Ids(offline)[..i] + [offline[i].id];
      i := i + 1;
    }
    assert Ids(offline)[..i] == Ids(offline);
    return null;
  }

  /** An element at i that is not found before i is the one IndexOf finds. */
  lemma {:induction false} IndexOfAt<T>(s: seq<T>, i: nat)
    requires i < |s| && s[i] !in s[..i]
    ensures IndexOf(s, s[i]) == i
  {
  }

  /** A stack pointer inside the task's stack, from splower to spupper inclusive. */
  predicate InStack(task: Task, sp: int)
    reads task
  {
    task.splower <= sp <= task.spupper
  }

  /**
   * checkstack, with port_getstack's value given as sp: the stack check
   * alerts exactly when sp is outside the task's stack.
   */
  method CheckStack(task: Task, sp: int) returns (alert: bool)
    ensures alert <==> !InStack(task, sp)
  {
    alert := sp < task.splower || task.spupper < sp;
  }

  /**
   * The bookkeeping of one pass of the loop of switch_tasks, before the
   * switch itself: switch_needed is cleared; when the heir is the task
   * running, nothing else happens and stay is true.  Otherwise the heir
   * becomes thistask, and the task switched away from is left in the
   * removing slot, which must be empty, when it is TS_REMOVING.
   */
  method SwitchAway(cpu: CPU) returns (stay: bool)
    requires cpu.heir.state != TS_REMOVED
    requires cpu.thistask.state == TS_REMOVING ==> cpu.removing == null
    modifies cpu`switch_needed, cpu`thistask, cpu`removing
    ensures !cpu.switch_needed
    ensures stay <==> old(cpu.heir) == old(cpu.thistask)
    ensures cpu.thistask == cpu.heir
    ensures !stay && old(cpu.thistask.state) == TS_REMOVING ==> cpu.removing == old(cpu.thistask)
    ensures stay || old(cpu.thistask.state) != TS_REMOVING ==> cpu.removing == old(cpu.removing)
  {
    cpu.switch_needed := false;
    var thistask := cpu.thistask;
    var heir := cpu.heir;
    if heir == thistask {
      return true;
    }
    cpu.thistask := heir;
    if thistask.state == TS_REMOVING {
      cpu.removing := thistask;
    }
    return false;
  }

  /** The task in a removing slot, as a set for framing: empty when the slot is. */
  function Held(t: Task?): set<Task> {
    if t == null then {} else {t}
  }

  /**
   * process_removing, run by the task switched to: a task left in the
   * removing slot becomes TS_REMOVED, the slot is emptied and the cleanup
   * task is signalled with SIGF_CLEANUP.  An empty slot changes nothing.
   */
  method ProcessSlot(k: Kernel, cpu: CPU)
    requires k.Valid() && k.cleantask != null && k.Known(k.cleantask)
    requires cpu.removing != null ==> cpu.removing in k.taskremoved && cpu.removing.state == TS_REMOVING
    modifies k`taskready, k`taskwait, cpu`removing, Held(cpu.removing)`state, k.cleantask`sigrecvd, k.cleantask`state
    ensures k.Valid() && k.taskremoved == old(k.taskremoved) && cpu.removing == null
    ensures old(cpu.removing) != null ==>
      old(cpu.removing).state == TS_REMOVED && k.cleantask.sigrecvd == old(k.cleantask.sigrecvd) | SIGF_CLEANUP
    ensures old(cpu.removing) == null ==>
      k.taskready == old(k.taskready) && k.taskwait == old(k.taskwait) && k.cleantask.sigrecvd == old(k.cleantask.sigrecvd)
  {
    var rem := cpu.removing;
    if rem == null {
      return;
    }
    k.ProcessRemoving(rem);
    cpu.removing := null;
  }

  /**
   * A pass of the loop of switch_tasks that switches to another task: a
   * task in TS_REMOVING switched away from ends TS_REMOVED with the
   * cleanup task signalled, and the slot is empty again.
   */
  method SwitchPass(k: Kernel, cpu: CPU) returns (stay: bool)
    requires k.Valid() && k.cleantask != null && k.Known(k.cleantask)
    requires cpu.removing == null && cpu.heir.state != TS_REMOVED
    requires cpu.thistask.state == TS_REMOVING ==> cpu.thistask in k.taskremoved
    modifies k`taskready, k`taskwait, cpu`switch_needed, cpu`thistask, cpu`removing
    modifies cpu.thistask`state, k.cleantask`sigrecvd, k.cleantask`state
    ensures k.Valid() && k.taskremoved == old(k.taskremoved) && cpu.removing == null
    ensures cpu.thistask == cpu.heir && (stay <==> old(cpu.heir) == old(cpu.thistask))
    ensures !stay && old(cpu.thistask.state) == TS_REMOVING ==>
      old(cpu.thistask).state == TS_REMOVED && k.cleantask.sigrecvd == old(k.cleantask.sigrecvd) | SIGF_CLEANUP
  {
    stay := SwitchAway(cpu);
    if !stay {
      ProcessSlot(k, cpu);
    }
  }
}
