/**
 * Interrupt servers, single-processor version (mod/exec/intserver-sp.c).
 *
 * Every interrupt source (intnum) has a list of Interrupt nodes ordered by
 * priority.  Adding a server enables the source at the port, and removing
 * the last one disables it, so a source is enabled exactly while it has a
 * server.  When the source fires, runintservers calls every server on its
 * list in list order.
 *
 * The enable state the port keeps for each source is the sequence
 * `enabled`.  Handlers are foreign code: a call is recorded as the pair of
 * its code and data addresses.  The cast from a list node back to its
 * Interrupt is the map `owner`.
 */
module IntServers {
  import opened Lists

  /** struct Interrupt: a list node with the handler's code and data addresses. */
  class Interrupt {
    const node: Node
    const data: int
    const code: int

    constructor (node: Node, data: int, code: int)
      ensures this.node == node && this.data == data && this.code == code
    {
      this.node := node;
      this.data := data;
      this.code := code;
    }
  }

  /** One handler call of runintservers: is->code(lib, is->data). */
  datatype Call = Call(code: int, data: int)

  /** Taking off the node just enqueued gives back the list as it was. */
  lemma {:induction false} RemoveUndoesEnqueue(ns: seq<Node>, x: Node)
    requires x !in ns
    ensures x in InsertAt(ns, EnqueuePos(Pris(ns), x.pri), x)
    ensures RemoveAt(InsertAt(ns, EnqueuePos(Pris(ns), x.pri), x), IndexOf(InsertAt(ns, EnqueuePos(Pris(ns), x.pri), x), x)) == ns
  {
    var k := EnqueuePos(Pris(ns), x.pri);
    var s := InsertAt(ns, k, x);
    InsertAtIndex(ns, k, x, k);
    assert x in s;
    var j := IndexOf(s, x);
    if j < k {
      InsertAtIndex(ns, k, x, j);
    }
    assert j == k;
    assert s[..k] == ns[..k] && s[k + 1..] == ns[k..];
    assert ns == ns[..k] + ns[k..];
  }

  /** lib->intserver and the port's enable state of each source. */
  class IntServer {
    /** One list per interrupt source. */
    const lists: seq<List>
    /** The nodes on each list. */
    ghost var queues: seq<seq<Node>>
    /** Whether the port has each source enabled. */
    var enabled: seq<bool>
    /** The Interrupt each listed node belongs to. */
    var owner: map<Node, Interrupt>
    /** Every node that has been put on a list. */
    ghost var Repr: set<Node>

    /** A source is enabled exactly when its list has a server. */
    ghost predicate Valid()
      reads this, lists, Repr
    {
      Sound() && forall i :: 0 <= i < |queues| ==> (enabled[i] <==> queues[i] != [])
    }

    /**
     * The lists are distinct and share no node, and every listed node is an
     * NT_INTERRUPT node of a known Interrupt.
     */
    ghost predicate Sound()
      reads this, lists, Repr
    {
      && |enabled| == |lists| == |queues|
      && (forall i, j :: 0 <= i < j < |lists| ==> lists[i] != lists[j])
      && (forall i :: 0 <= i < |lists| ==> lists[i].Valid() && lists[i].nodes == queues[i])
      && (forall i, n :: 0 <= i < |queues| && n in queues[i] ==>
            n in Repr && n in owner && owner[n].node == n && n.ntype == NT_INTERRUPT)
      && (forall i, j, n :: 0 <= i < j < |queues| && n in queues[i] ==> n !in queues[j])
    }

    /**
     * intserver_init: num empty lists, one per source.  The port leaves
     * every source disabled until a server is added.
     */
    constructor (num: nat)
      ensures Valid() && |lists| == num
      ensures forall i :: 0 <= i < num ==> fresh(lists[i])
      ensures queues == seq(num, _ => []) && enabled == seq(num, _ => false)
    {
      var ls: seq<List> := [];
      var i := 0;
      while i < num
        invariant 0 <= i <= num && |ls| == i
        invariant forall k :: 0 <= k < i ==> fresh(ls[k]) && ls[k].Valid() && ls[k].nodes == []
        invariant forall k, l :: 0 <= k < l < i ==> ls[k] != ls[l]
      {
        var l := new List();
        ls := ls + [l];
        i := i + 1;
      }
      lists := ls;
      queues := seq(num, _ => []);
      enabled := seq(num, _ => false);
      owner := map[];
      Repr := {};
    }

    /**
     * iAddIntServer: the node is tagged NT_INTERRUPT and enqueued by
     * priority on the source's list, and the source is enabled.
     */
    method AddIntServer(inode: Interrupt, intnum: int)
      requires Valid() && 0 <= intnum < |lists|
      requires forall i :: 0 <= i < |queues| ==> inode.node !in queues[i]
      modifies this`queues, this`enabled, this`owner, this`Repr, lists[intnum], inode.node`ntype
      ensures Valid()
      ensures inode.node.ntype == NT_INTERRUPT
      ensures queues == old(queues)[intnum := InsertAt(old(queues[intnum]), old(EnqueuePos(Pris(queues[intnum]), inode.node.pri)), inode.node)]
      ensures enabled == old(enabled)[intnum := true]
      ensures owner == old(owner)[inode.node := inode]
    {
      Adopt(inode);
      Attach(inode.node, intnum);
    }

    /** The node becomes an NT_INTERRUPT node owned by inode. */
    method Adopt(inode: Interrupt)
      requires Valid()
      requires forall i :: 0 <= i < |queues| ==> inode.node !in queues[i]
      modifies this`owner, this`Repr, inode.node`ntype
      ensures Valid() && inode.node in Repr
      ensures inode.node.ntype == NT_INTERRUPT
      ensures owner == old(owner)[inode.node := inode]
    {
      inode.node.ntype := NT_INTERRUPT;
      owner := owner[inode.node := inode];
      Repr := Repr + {inode.node};
    }

    /** The node is enqueued on the source's list and the source is enabled. */
    method Attach(n: Node, intnum: int)
      requires Valid() && 0 <= intnum < |lists|
      requires n in Repr && n in owner && owner[n].node == n && n.ntype == NT_INTERRUPT
      requires forall i :: 0 <= i < |queues| ==> n !in queues[i]
      modifies this`queues, this`enabled, lists[intnum]
      ensures Valid()
      ensures queues == old(queues)[intnum := InsertAt(old(queues[intnum]), old(EnqueuePos(Pris(queues[intnum]), n.pri)), n)]
      ensures enabled == old(enabled)[intnum := true]
    {
      Enqueue(n, intnum);
      enabled := enabled[intnum := true];
    }

    /** The node is enqueued by priority on the source's list. */
    method Enqueue(n: Node, intnum: int)
      requires Sound() && 0 <= intnum < |lists|
      requires n in Repr && n in owner && owner[n].node == n && n.ntype == NT_INTERRUPT
      requires forall i :: 0 <= i < |queues| ==> n !in queues[i]
      modifies this`queues, lists[intnum]
      ensures Sound()
      ensures queues == old(queues)[intnum := InsertAt(old(queues[intnum]), old(EnqueuePos(Pris(queues[intnum]), n.pri)), n)]
    {
      var list := lists[intnum];
      ghost var ns := list.nodes;
      list.Enqueue(n);
      InsertAtMembersAll(ns, EnqueuePos(Pris(ns), n.pri), n);
      queues := queues[intnum := list.nodes];
    }

    /**
     * iRemIntServer: the node is taken off the source's list, and the
     * source is disabled when the list is then empty.
     */
    method RemIntServer(inode: Interrupt, intnum: int)
      requires Valid() && 0 <= intnum < |lists| && inode.node in queues[intnum]
      modifies this`queues, this`enabled, lists[intnum]
      ensures Valid()
      ensures queues == old(queues)[intnum := RemoveAt(old(queues[intnum]), IndexOf(old(queues[intnum]), inode.node))]
      ensures enabled == old(enabled)[intnum := queues[intnum] != []]
    {
      Dequeue(inode.node, intnum);
      var head := lists[intnum].GetHead();
      if head == null {
        enabled := enabled[intnum := false];
      }
    }

    /** The node is taken off the source's list. */
    method Dequeue(n: Node, intnum: int)
      requires Sound() && 0 <= intnum < |lists| && n in queues[intnum]
      modifies this`queues, lists[intnum]
      ensures Sound()
      ensures queues == old(queues)[intnum := RemoveAt(old(queues[intnum]), IndexOf(old(queues[intnum]), n))]
    {
      var list := lists[intnum];
      ghost var ns := list.nodes;
      list.Remove(n);
      RemoveAtMembersAll(ns, IndexOf(ns, n));
      queues := queues[intnum := list.nodes];
    }

    /**
     * runintservers: every server on the source's list is called once, in
     * list order, with its own data.
     */
    method RunIntServers(intnum: int) returns (calls: seq<Call>)
      requires Valid() && 0 <= intnum < |lists|
      ensures |calls| == |queues[intnum]|
      ensures forall k :: 0 <= k < |calls| ==>
        calls[k] == Call(owner[queues[intnum][k]].code, owner[queues[intnum][k]].data)
    {
      var ns := lists[intnum].nodes;
      assert forall k :: 0 <= k < |ns| ==> ns[k] in owner by {
        forall k | 0 <= k < |ns| ensures ns[k] in owner {
          assert ns[k] in queues[intnum];
        }
      }
      calls := [];
      var k := 0;
      while k < |ns|
        invariant 0 <= k <= |ns| && |calls| == k
        invariant forall j :: 0 <= j < k ==> calls[j] == Call(owner[ns[j]].code, owner[ns[j]].data)
      {
        var server := owner[ns[k]];
        calls := calls + [Call(server.code, server.data)];
        k := k + 1;
      }
    }
  }
}
