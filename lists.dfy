/**
 * The exec intrusive doubly linked list (mod/exec/lists.c).
 *
 * The C list threads succ/pred pointers through the nodes and uses two
 * sentinel slots inside the List header.  Here a List holds the sequence of
 * its nodes, from head to tail; every pointer rewiring of the C code becomes
 * a reassignment of that sequence.  A Node keeps the fields the list code
 * reads (name, type, pri); no list operation writes them, which every
 * method states by modifying only the List.
 *
 * The sequence-level functions below (EnqueuePos, InsertAt, RemoveAt,
 * FindIndex) are the specification of the list operations and are also used
 * by the kernel components whose lists are kept as sequences of identifiers.
 */
module Lists {
  import opened Wrappers

  // Node.type values (mod/exec/pub/exec/lists.h)
  const NT_UNKNOWN := 0
  const NT_TASK := 1
  const NT_INTERRUPT := 2
  const NT_DEVICE := 3
  const NT_UNIT := 4
  const NT_MESSAGE := 5
  const NT_FREEMSG := 6
  const NT_REPLYMSG := 7
  const NT_LIBRARY := 8
  const NT_MEMHEADER := 9
  const NT_MEMLIST := 10
  const NT_CPU := 11
  const NT_PROCESS := 12
  const NT_CUSTOM := 64

  /** Node.pri is a C short. */
  predicate IsShort(x: int) { -32768 <= x <= 32767 }

  const NUL: char := 0 as char

  // ---------------------------------------------------------------------
  // Sequence-level specification
  // ---------------------------------------------------------------------

  predicate Distinct<T(==)>(s: seq<T>) {
    forall i, j :: 0 <= i < j < |s| ==> s[i] != s[j]
  }

  function InsertAt<T>(s: seq<T>, i: nat, x: T): (r: seq<T>)
    requires i <= |s|
  {
    s[..i] + [x] + s[i..]
  }

  /** Element k of InsertAt(s, i, x): the old element shifted or x itself. */
  lemma {:induction false} InsertAtIndex<T>(s: seq<T>, i: nat, x: T, k: nat)
    requires i <= |s| && k <= |s|
    ensures InsertAt(s, i, x)[k] == if k < i then s[k] else if k == i then x else s[k - 1]
  {
  }

  /** The members of InsertAt(s, i, x): those of s, and x. */
  lemma {:induction false} InsertAtMembers<T>(s: seq<T>, i: nat, x: T, y: T)
    requires i <= |s|
    ensures y in InsertAt(s, i, x) <==> y in s || y == x
  {
    assert s == s[..i] + s[i..];
  }

  function RemoveAt<T>(s: seq<T>, i: nat): (r: seq<T>)
    requires i < |s|
  {
    s[..i] + s[i + 1..]
  }

  /** The members of InsertAt(s, i, x) are those of s and x. */
  lemma {:induction false} InsertAtMembersAll<T>(s: seq<T>, i: nat, x: T)
    requires i <= |s|
    ensures forall y :: y in InsertAt(s, i, x) <==> y in s || y == x
  {
    forall y ensures y in InsertAt(s, i, x) <==> y in s || y == x {
      InsertAtMembers(s, i, x, y);
    }
  }

  /** The members of RemoveAt(s, i) are members of s. */
  lemma {:induction false} RemoveAtMembersAll<T>(s: seq<T>, i: nat)
    requires i < |s|
    ensures forall x :: x in RemoveAt(s, i) ==> x in s
  {
    forall x | x in RemoveAt(s, i) ensures x in s {
      var j :| 0 <= j < |s| - 1 && RemoveAt(s, i)[j] == x;
      RemoveAtIndex(s, i, j);
    }
  }

  lemma {:induction false} InsertAtDistinct<T>(s: seq<T>, i: nat, x: T)
    requires i <= |s| && Distinct(s) && x !in s
    ensures Distinct(InsertAt(s, i, x))
  {
    var r := InsertAt(s, i, x);
    forall a, b | 0 <= a < b < |r| ensures r[a] != r[b] {
      if b < i {
        assert r[a] == s[a] && r[b] == s[b];
      } else if b == i {
        assert r[a] == s[a];
      } else if a < i {
        assert r[a] == s[a] && r[b] == s[b - 1];
      } else if a == i {
        assert r[b] == s[b - 1];
      } else {
        assert r[a] == s[a - 1] && r[b] == s[b - 1];
      }
    }
  }

  lemma {:induction false} RemoveAtDistinct<T>(s: seq<T>, i: nat)
    requires i < |s| && Distinct(s)
    ensures Distinct(RemoveAt(s, i)) && s[i] !in RemoveAt(s, i)
  {
    var r := RemoveAt(s, i);
    forall j | 0 <= j < |r| ensures r[j] != s[i] && r[j] == (if j < i then s[j] else s[j + 1]) {
    }
  }

  /** Element j of RemoveAt(s, i): the elements after i move down by one. */
  lemma {:induction false} RemoveAtIndex<T>(s: seq<T>, i: nat, j: nat)
    requires i < |s| && j < |s| - 1
    ensures RemoveAt(s, i)[j] == if j < i then s[j] else s[j + 1]
  {
  }

  /** Taking an element off a list sorted by priority leaves it sorted. */
  lemma {:induction false} RemoveAtNonIncreasing(pris: seq<int>, i: nat)
    requires i < |pris| && NonIncreasing(pris)
    ensures NonIncreasing(RemoveAt(pris, i))
  {
    var r := RemoveAt(pris, i);
    forall x, y | 0 <= x < y < |r| ensures r[x] >= r[y] {
      RemoveAtIndex(pris, i, x);
      RemoveAtIndex(pris, i, y);
    }
  }

  /** Both halves of a list without repeats are without repeats. */
  lemma {:induction false} DistinctSplit<T>(a: seq<T>, b: seq<T>)
    requires Distinct(a + b)
    ensures Distinct(a) && Distinct(b)
  {
    forall i, j | 0 <= i < j < |a| ensures a[i] != a[j] {
      assert a[i] == (a + b)[i] && a[j] == (a + b)[j];
    }
    forall i, j | 0 <= i < j < |b| ensures b[i] != b[j] {
      assert b[i] == (a + b)[|a| + i] && b[j] == (a + b)[|a| + j];
    }
  }

  /** Removing past a first element leaves that element in front. */
  lemma {:induction false} RemoveAtCons<T>(x: T, s: seq<T>, j: nat)
    requires j < |s|
    ensures RemoveAt([x] + s, j + 1) == [x] + RemoveAt(s, j)
  {
    assert ([x] + s)[..j + 1] == [x] + s[..j];
    assert ([x] + s)[j + 2..] == s[j + 1..];
  }

  /** The position of x in s. */
  function IndexOf<T(==)>(s: seq<T>, x: T): (i: nat)
    requires x in s
    ensures i < |s| && s[i] == x
    ensures forall j :: 0 <= j < i ==> s[j] != x
  {
    if s[0] == x then 0 else 1 + IndexOf(s[1..], x)
  }

  /**
   * Where Enqueue puts a node of priority p into a list whose priorities are
   * pris: before the first element of strictly lower priority, else at the
   * tail.
   */
  function EnqueuePos(pris: seq<int>, p: int): (i: nat)
    ensures i <= |pris|
    ensures forall j :: 0 <= j < i ==> pris[j] >= p
    ensures i < |pris| ==> pris[i] < p
  {
    if pris == [] then 0
    else if pris[0] < p then 0
    else 1 + EnqueuePos(pris[1..], p)
  }

  /** EnqueuePos is the only position its two defining properties allow. */
  lemma {:induction false} EnqueuePosUnique(pris: seq<int>, p: int, i: nat)
    requires i <= |pris|
    requires forall j :: 0 <= j < i ==> pris[j] >= p
    requires i < |pris| ==> pris[i] < p
    ensures i == EnqueuePos(pris, p)
  {
  }

  /** Highest priority first; the order a list built by Enqueue has. */
  predicate NonIncreasing(pris: seq<int>) {
    forall i, j :: 0 <= i < j < |pris| ==> pris[i] >= pris[j]
  }

  /** The index of the first name equal to the given one; absent names are skipped. */
  function FindIndex(names: seq<Option<string>>, name: string): (r: Option<nat>)
    ensures r.Some? ==> r.value < |names| && names[r.value] == Some(name)
    ensures r.Some? ==> forall j :: 0 <= j < r.value ==> names[j] != Some(name)
    ensures r.None? ==> forall j :: 0 <= j < |names| ==> names[j] != Some(name)
  {
    if names == [] then None
    else if names[0] == Some(name) then Some(0)
    else match FindIndex(names[1..], name)
      case None => None
      case Some(k) => Some(k + 1)
  }

  /** Enqueueing into a list sorted by priority keeps it sorted. */
  lemma {:induction false} EnqueueKeepsOrder(pris: seq<int>, p: int)
    requires NonIncreasing(pris)
    ensures NonIncreasing(InsertAt(pris, EnqueuePos(pris, p), p))
  {
    var i := EnqueuePos(pris, p);
    var r := InsertAt(pris, i, p);
    forall a, b | 0 <= a < b < |r| ensures r[a] >= r[b] {
      if b < i {
      } else if b == i {
        assert r[a] == pris[a];
      } else if a < i {
        assert r[b] == pris[b - 1];
        assert pris[a] >= pris[b - 1];
      } else if a == i {
        assert r[b] == pris[b - 1];
        assert pris[i] >= pris[b - 1];
      } else {
        assert r[a] == pris[a - 1] && r[b] == pris[b - 1];
      }
    }
  }

  /**
   * Enqueue is stable: in a sorted list, the new node goes after every
   * node of the same priority, and before every node of lower priority.
   */
  lemma {:induction false} EnqueueIsStable(pris: seq<int>, p: int)
    requires NonIncreasing(pris)
    ensures forall j :: 0 <= j < |pris| && pris[j] == p ==> j < EnqueuePos(pris, p)
    ensures forall j :: EnqueuePos(pris, p) <= j < |pris| ==> pris[j] < p
  {
    var i := EnqueuePos(pris, p);
    forall j | i <= j < |pris| ensures pris[j] < p {
      assert pris[i] >= pris[j];
    }
  }

  // ---------------------------------------------------------------------
  // Nodes and lists
  // ---------------------------------------------------------------------

  class Node {
    var name: Option<string>
    var ntype: int
    var pri: int

    constructor (name: Option<string>, ntype: int, pri: int)
      ensures this.name == name && this.ntype == ntype && this.pri == pri
    {
      this.name := name;
      this.ntype := ntype;
      this.pri := pri;
    }
  }

  function Pris(ns: seq<Node>): (r: seq<int>)
    reads ns
    ensures |r| == |ns| && forall i :: 0 <= i < |ns| ==> r[i] == ns[i].pri
  {
    seq(|ns|, i requires 0 <= i < |ns| reads ns => ns[i].pri)
  }

  function Names(ns: seq<Node>): (r: seq<Option<string>>)
    reads ns
    ensures |r| == |ns| && forall i :: 0 <= i < |ns| ==> r[i] == ns[i].name
  {
    seq(|ns|, i requires 0 <= i < |ns| reads ns => ns[i].name)
  }

  lemma {:induction false} PrisInsertAt(ns: seq<Node>, i: nat, n: Node)
    requires i <= |ns|
    ensures Pris(InsertAt(ns, i, n)) == InsertAt(Pris(ns), i, n.pri)
  {
    assert |Pris(InsertAt(ns, i, n))| == |InsertAt(Pris(ns), i, n.pri)|;
  }

  /**
   * c_strcmp: 0 when the two NUL-terminated strings are equal, 1 otherwise.
   * A string is its characters before the terminating NUL.
   */
  method StrCmp(s1: string, s2: string) returns (r: int)
    requires NUL !in s1 && NUL !in s2
    ensures r == 0 || r == 1
    ensures r == 0 <==> s1 == s2
  {
    var i := 0;
    while CharAt(s1, i) == CharAt(s2, i)
      invariant 0 <= i <= |s1| && i <= |s2|
      invariant s1[..i] == s2[..i]
      decreases |s1| - i
    {
      if CharAt(s1, i) == NUL {
        assert s1 == s1[..i] && s2 == s2[..i];
        return 0;
      }
      i := i + 1;
    }
    return 1;
  }

  /** The character at index i of a NUL-terminated string. */
  function CharAt(s: string, i: nat): (c: char)
    ensures c == NUL <==> (i >= |s| || s[i] == NUL)
  {
    if i < |s| then s[i] else NUL
  }

  class List {
    /** The nodes from head to tail. */
    var nodes: seq<Node>

    /** A node is on the list at most once. */
    ghost predicate Valid()
      reads this
    {
      Distinct(nodes)
    }

    /** iNewList */
    constructor ()
      ensures Valid() && nodes == []
    {
      nodes := [];
    }

    /** iGetHead: the first node, or null for an empty list. */
    method GetHead() returns (n: Node?)
      ensures nodes == [] ==> n == null
      ensures nodes != [] ==> n == nodes[0]
    {
      if nodes == [] {
        n := null;
      } else {
        n := nodes[0];
      }
    }

    /** iGetTail: the last node, or null for an empty list. */
    method GetTail() returns (n: Node?)
      ensures nodes == [] ==> n == null
      ensures nodes != [] ==> n == nodes[|nodes| - 1]
    {
      if nodes == [] {
        n := null;
      } else {
        n := nodes[|nodes| - 1];
      }
    }

    /** iInsert: after pred, or at the head when pred is null. */
    method Insert(node: Node, pred: Node?)
      requires Valid() && node !in nodes
      requires pred == null || pred in nodes
      modifies this
      ensures Valid()
      ensures pred == null ==> nodes == [node] + old(nodes)
      ensures pred != null ==> nodes == InsertAt(old(nodes), IndexOf(old(nodes), pred) + 1, node)
    {
      if pred == null {
        AddHead(node);
        return;
      }
      var i := IndexOf(nodes, pred);
      InsertAtDistinct(nodes, i + 1, node);
      nodes := InsertAt(nodes, i + 1, node);
    }

    /**
     * The walk of iEnqueue: the index of the first node of priority below
     * p, or the length of the list when there is none.
     */
    method Position(p: int) returns (i: nat)
      ensures i == EnqueuePos(Pris(nodes), p)
    {
      i := 0;
      while i < |nodes|
        invariant i <= |nodes|
        invariant forall j :: 0 <= j < i ==> nodes[j].pri >= p
      {
        if nodes[i].pri < p {
          break;
        }
        i := i + 1;
      }
      EnqueuePosUnique(Pris(nodes), p, i);
    }

    /**
     * iEnqueue: walk from the head to the first node of strictly lower
     * priority and insert in front of it (at the tail if there is none).
     */
    method Enqueue(node: Node)
      requires Valid() && node !in nodes
      modifies this
      ensures Valid()
      ensures nodes == InsertAt(old(nodes), EnqueuePos(Pris(old(nodes)), node.pri), node)
      ensures NonIncreasing(Pris(old(nodes))) ==> NonIncreasing(Pris(nodes))
    {
      var i := Position(node.pri);
      ghost var pris := Pris(nodes);
      InsertAtDistinct(nodes, i, node);
      nodes := InsertAt(nodes, i, node);
      PrisInsertAt(old(nodes), i, node);
      if NonIncreasing(pris) {
        EnqueueKeepsOrder(pris, node.pri);
      }
    }

    /** iRemove: unlink the node; the others keep their order. */
    method Remove(node: Node)
      requires Valid() && node in nodes
      modifies this
      ensures Valid() && node !in nodes
      ensures nodes == RemoveAt(old(nodes), IndexOf(old(nodes), node))
    {
      var i := IndexOf(nodes, node);
      RemoveAtDistinct(nodes, i);
      nodes := RemoveAt(nodes, i);
    }

    /** iAddHead */
    method AddHead(node: Node)
      requires Valid() && node !in nodes
      modifies this
      ensures Valid() && nodes == [node] + old(nodes)
    {
      nodes := [node] + nodes;
    }

    /** iAddTail */
    method AddTail(node: Node)
      requires Valid() && node !in nodes
      modifies this
      ensures Valid() && nodes == old(nodes) + [node]
    {
      nodes := nodes + [node];
    }

    /** iRemHead: remove and return the first node; null and no change when empty. */
    method RemHead() returns (n: Node?)
      requires Valid()
      modifies this
      ensures Valid()
      ensures old(nodes) == [] ==> n == null && nodes == []
      ensures old(nodes) != [] ==> n == old(nodes)[0] && nodes == old(nodes)[1..]
    {
      if nodes == [] {
        return null;
      }
      n := nodes[0];
      nodes := nodes[1..];
    }

    /** iRemTail: remove and return the last node; null and no change when empty. */
    method RemTail() returns (n: Node?)
      requires Valid()
      modifies this
      ensures Valid()
      ensures old(nodes) == [] ==> n == null && nodes == []
      ensures old(nodes) != [] ==> n == old(nodes)[|old(nodes)| - 1] && nodes == old(nodes)[..|old(nodes)| - 1]
    {
      if nodes == [] {
        return null;
      }
      n := nodes[|nodes| - 1];
      nodes := nodes[..|nodes| - 1];
    }

    /**
     * iFindName: the first node, in list order, whose name is present and
     * equal to name; null when there is none.
     */
    method FindName(name: string) returns (n: Node?)
      requires NUL !in name
      requires forall i :: 0 <= i < |nodes| && nodes[i].name.Some? ==> NUL !in nodes[i].name.value
      ensures FindIndex(Names(nodes), name).None? ==> n == null
      ensures FindIndex(Names(nodes), name).Some? ==> n == nodes[FindIndex(Names(nodes), name).value]
    {
      var i := 0;
      while i < |nodes|
        invariant 0 <= i <= |nodes|
        invariant forall j :: 0 <= j < i ==> nodes[j].name != Some(name)
      {
        if nodes[i].name.Some? {
          var c := StrCmp(name, nodes[i].name.value);
          if c == 0 {
            assert Names(nodes)[i] == Some(name);
            assert forall j :: 0 <= j < i ==> Names(nodes)[j] != Some(name);
            return nodes[i];
          }
        }
        i := i + 1;
      }
      assert forall j :: 0 <= j < |nodes| ==> Names(nodes)[j] != Some(name);
      n := null;
    }
  }
}
