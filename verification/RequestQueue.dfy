/** The queue of waiting connections: a doubly linked list between two sentinels. */
module RequestQueue {
  import opened Basics

  class QueueNode {
    const fd: int
    const arrival: int
    var dispatch: int
    var prev: QueueNode?
    var next: QueueNode?

    constructor (fd: int, arrival: int)
      ensures this.fd == fd && this.arrival == arrival && dispatch == arrival && prev == null && next == null
    {
      this.fd, this.arrival, this.dispatch := fd, arrival, arrival;
      prev, next := null, null;
    }
  }

  /** The descriptors of a list of nodes. */
  function FdsOf(s: seq<QueueNode>): (t: seq<int>)
    ensures |t| == |s|
  {
    seq(|s|, i requires 0 <= i < |s| => s[i].fd)
  }

  /** The nodes are different and linked in this order. */
  ghost predicate Linked(c: seq<QueueNode>)
    reads set n: object | n in c
  {
    && (forall i, j :: 0 <= i < j < |c| ==> c[i] != c[j])
    && (forall i {:trigger c[i].next} :: 0 <= i < |c| - 1 ==> c[i].next == c[i + 1])
    && (forall i {:trigger c[i].prev} :: 0 < i < |c| ==> c[i].prev == c[i - 1])
  }

  lemma FdsAppend(s: seq<QueueNode>, n: QueueNode)
    ensures FdsOf(s + [n]) == FdsOf(s) + [n.fd]
  {
  }

  lemma FdsRemove(s: seq<QueueNode>, k: nat)
    requires k < |s|
    ensures FdsOf(RemoveAt(s, k)) == RemoveAt(FdsOf(s), k)
  {
  }

  /** Link a new node before the last one. */
  method LinkBefore(node: QueueNode, end: QueueNode, ghost c: seq<QueueNode>)
    requires Linked(c) && |c| >= 2 && c[|c| - 1] == end && node !in c
    modifies node, set n: object | n in c
    ensures Linked(c[..|c| - 1] + [node, end])
  {
    assert c[|c| - 1].prev == c[|c| - 2];
    var endPrev := end.prev;
    end.prev := node;
    node.next := end;
    node.prev := endPrev;
    endPrev.next := node;
    ghost var d := c[..|c| - 1] + [node, end];
    assert forall i :: 0 <= i < |c| - 1 ==> d[i] == c[i];
  }

  /** Take the node at position `j`, which is not the first or the last, out of the list. */
  method Bypass(node: QueueNode, ghost c: seq<QueueNode>, ghost j: nat)
    requires Linked(c) && 0 < j < |c| - 1 && c[j] == node
    modifies set n: object | n in c
    ensures Linked(RemoveAt(c, j)) && node !in RemoveAt(c, j)
    ensures forall n :: n in RemoveAt(c, j) ==> n in c
  {
    assert c[j].next == c[j + 1] && c[j].prev == c[j - 1];
    node.next.prev := node.prev;
    node.prev.next := node.next;
    ghost var d := RemoveAt(c, j);
    assert forall i :: 0 <= i < j ==> d[i] == c[i];
    assert forall i :: j <= i < |d| ==> d[i] == c[i + 1];
  }

  class Queue {
    const head: QueueNode
    const end: QueueNode
    const queueSize: int
    var waitingQueueSize: int
    ghost var nodes: seq<QueueNode>   // the waiting nodes, oldest first

    /** The whole list with its sentinels. */
    ghost function Chain(): seq<QueueNode>
      reads this
    {
      [head] + nodes + [end]
    }

    ghost function Repr(): set<object>
      reads this
    {
      {this as object} + set n: object | n in Chain()
    }

    ghost predicate Valid()
      reads Repr()
    {
      Linked(Chain()) && waitingQueueSize == |nodes|
    }

    /** The waiting descriptors, oldest first. */
    ghost function Fds(): (s: seq<int>)
      reads this
      ensures |s| == |nodes|
    {
      FdsOf(nodes)
    }

    constructor (queueSize: int, now: int)
      ensures Valid() && fresh(Repr()) && Fds() == [] && this.queueSize == queueSize
    {
      var h := new QueueNode(-1, now);
      var e := new QueueNode(-1, now);
      head, end := h, e;
      h.next := e;
      e.prev := h;
      this.queueSize := queueSize;
      waitingQueueSize := 0;
      nodes := [];
    }

    method Enqueue(fd: int, arrival: int)
      requires Valid()
      modifies Repr()
      ensures Valid() && fresh(Repr() - old(Repr()))
      ensures Fds() == old(Fds()) + [fd]
      ensures nodes[|nodes| - 1].arrival == arrival && nodes[..|nodes| - 1] == old(nodes)
    {
      hide Linked, FdsOf;
      var node := new QueueNode(fd, arrival);
      ghost var c := Chain();
      LinkBefore(node, end, c);
      waitingQueueSize := waitingQueueSize + 1;
      nodes := nodes + [node];
      assert Chain() == c[..|c| - 1] + [node, end];
      FdsAppend(old(nodes), node);
    }

    /** Unlink the node at position `k`. */
    method Unlink(node: QueueNode, ghost k: nat)
      requires Valid() && k < |nodes| && nodes[k] == node
      modifies this`waitingQueueSize, this`nodes, Repr() - {this}
      ensures Valid() && nodes == RemoveAt(old(nodes), k)
      ensures Fds() == RemoveAt(old(Fds()), k)
      ensures node !in Repr() && Repr() <= old(Repr())
    {
      hide Linked, FdsOf;
      ghost var c := Chain();
      assert c[k + 1] == node;
      Bypass(node, c, k + 1);
      waitingQueueSize := waitingQueueSize - 1;
      nodes := RemoveAt(nodes, k);
      assert Chain() == RemoveAt(c, k + 1);
      FdsRemove(old(nodes), k);
    }

    /** The oldest waiting node; there must be one. */
    method Dequeue(now: int) returns (node: QueueNode)
      requires Valid() && nodes != []
      modifies Repr()
      ensures Valid() && Repr() <= old(Repr())
      ensures node == old(nodes)[0] && node.fd == old(Fds())[0] && node.dispatch == now && node !in Repr()
      ensures nodes == old(nodes)[1..] && Fds() == old(Fds())[1..]
    {
      assert Chain()[0].next == Chain()[1];
      node := head.next;
      Unlink(node, 0);
      node.dispatch := now;
    }

    /** Remove the waiting node number `index`, which there must be, and return its descriptor. */
    method RandomDrop(index: nat) returns (fd: int)
      requires Valid() && index < |nodes|
      modifies Repr()
      ensures Valid() && Repr() <= old(Repr())
      ensures fd == old(Fds())[index] && Fds() == RemoveAt(old(Fds()), index) && nodes == RemoveAt(old(nodes), index)
    {
      assert Chain()[0].next == Chain()[1];
      var node := head.next;
      for i := 0 to index
        invariant node == nodes[i]
      {
        assert Chain()[i + 1].next == Chain()[i + 2];
        node := node.next;
      }
      Unlink(node, index);
      fd := node.fd;
    }
  }
}
