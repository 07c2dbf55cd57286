/** venet's intrusive send queue: net buffer lists linked through their own first field. */
module SendQueue {
  /** A chain of NET_BUFFERs, which the driver only reads. */
  datatype NetBuffers = NoMore | NetBuffer(next: NetBuffers)

  function Length(nb: NetBuffers): nat {
    match nb
    case NoMore => 0
    case NetBuffer(next) => 1 + Length(next)
  }

  /** SrCountNBL. */
  method CountNbl(first: NetBuffers) returns (cnt: nat)
    ensures cnt == Length(first)
  {
    var nb := first;
    cnt := 0;
    while nb != NoMore
      invariant cnt + Length(nb) == Length(first)
      decreases nb
    {
      cnt := cnt + 1;
      nb := nb.next;
    }
  }

  /** NET_BUFFER_LIST. */
  class NetBufferList {
    // the queue entry, and the chain NDIS hands the lists over in
    var next: NetBufferList?
    var status: int
    // MiniportReserved[0]: the number of net buffers
    var count: nat
    const firstNb: NetBuffers
    // 0 stands for NULL
    const cancelId: nat

    constructor (cancelId: nat, firstNb: NetBuffers) {
      this.cancelId, this.firstNb, next, status, count := cancelId, firstNb, null, 0, 0;
    }
  }

  // What node i of the sequence links to.
  function NextOf(nodes: seq<NetBufferList>, i: int): NetBufferList?
    requires 0 <= i < |nodes|
  {
    if i + 1 < |nodes| then nodes[i + 1] else null
  }

  ghost predicate Distinct(nodes: seq<NetBufferList>) {
    forall i, j :: 0 <= i < j < |nodes| ==> nodes[i] != nodes[j]
  }

  /** Following the links from head visits exactly the given nodes, all different, and ends. */
  ghost predicate Chain(head: NetBufferList?, nodes: seq<NetBufferList>)
    reads nodes`next
  {
    && Distinct(nodes)
    && head == (if nodes == [] then null else nodes[0])
    && forall i {:trigger nodes[i].next} ::
      0 <= i < |nodes| ==> nodes[i].next == NextOf(nodes, i)
  }

  lemma ChainTail(head: NetBufferList?, nodes: seq<NetBufferList>)
    requires Chain(head, nodes) && nodes != []
    ensures Chain(nodes[0].next, nodes[1..]) && nodes[0] !in nodes[1..]
  {
    var rest := nodes[1..];
    forall i | 0 <= i < |rest|
      ensures rest[i].next == NextOf(rest, i)
    {
      assert rest[i] == nodes[i + 1];
    }
  }

  lemma ChainCons(nbl: NetBufferList, head: NetBufferList?, nodes: seq<NetBufferList>)
    requires Chain(head, nodes) && nbl !in nodes && nbl.next == head
    ensures Chain(nbl, [nbl] + nodes)
  {
    var all := [nbl] + nodes;
    forall i | 0 <= i < |all|
      ensures all[i].next == NextOf(all, i)
    {
      if i > 0 { assert all[i] == nodes[i - 1]; }
    }
  }

  class Queue {
    var head: NetBufferList?
    var tail: NetBufferList?
    ghost var nodes: seq<NetBufferList>

    /** The linked nodes are the abstract sequence; Tail is the last of them, or NULL exactly
        when there is none. */
    ghost predicate Valid()
      reads this, nodes`next
    {
      Chain(head, nodes) && tail == (if nodes == [] then null else nodes[|nodes| - 1])
    }

    /** QueueInit. */
    constructor ()
      ensures Valid() && nodes == []
    {
      head, tail, nodes := null, null, [];
    }

    /** QueueEmpty. */
    method Empty() returns (e: bool)
      requires Valid()
      ensures e <==> nodes == []
    {
      e := head == null;
    }

    /** QueueDeque: assumes a non-empty queue. */
    method Deque() returns (nbl: NetBufferList)
      requires Valid() && nodes != []
      modifies this, (if head == null then {} else {head})`next
      ensures Valid() && [nbl] + nodes == old(nodes) && nbl.next == null
    {
      nbl := head;
      head := nbl.next;
      if head == null {
        tail := null;
      }
      ChainTail(nbl, nodes);
      nodes := nodes[1..];
      nbl.next := null;
    }

    /** QueueEnqueTail. */
    method EnqueTail(nbl: NetBufferList)
      requires Valid() && nbl !in nodes
      modifies this, nbl`next, (if tail == null then {} else {tail})`next
      ensures Valid() && nodes == old(nodes) + [nbl]
    {
      nbl.next := null;
      if head == null {
        head := nbl;
      } else {
        tail.next := nbl;
      }
      tail := nbl;
      nodes := nodes + [nbl];
    }

    /** QueueEnqueHead. */
    method EnqueHead(nbl: NetBufferList)
      requires Valid() && nbl !in nodes
      modifies this, nbl`next
      ensures Valid() && nodes == [nbl] + old(nodes)
    {
      nbl.next := head;
      head := nbl;
      if tail == null {
        tail := nbl;
      }
      ChainCons(nbl, nbl.next, nodes);
      nodes := [nbl] + nodes;
    }

    /** The relinking of SrCancelQueued: takes out curr, the node behind prev, and leaves
        curr's own link alone. */
    method Unlink(prev: NetBufferList, curr: NetBufferList, ghost i: nat)
      requires Valid() && i < |nodes| && curr == nodes[i] && (i > 0 ==> prev == nodes[i - 1])
      modifies this, (if i == 0 then {} else {prev})`next
      ensures Valid() && nodes == old(nodes[..i] + nodes[i + 1..]) && curr.next == old(curr.next)
    {
      ghost var rest := nodes[..i] + nodes[i + 1..];
      CutDistinct(nodes, i);
      if curr == head {
        head := curr.next;
        if curr.next == null {
          tail := null;
        }
      } else {
        prev.next := curr.next;
        if curr.next == null {
          tail := prev;
        }
      }
      nodes := rest;
      forall j | 0 <= j < |rest|
        ensures rest[j].next == NextOf(rest, j)
      {
        assert old(NextOf(nodes, if j < i then j else j + 1)) == old(rest[j].next);
      }
    }
  }

  // Taking a node out of the middle of a chain.
  lemma CutDistinct(nodes: seq<NetBufferList>, i: nat)
    requires Distinct(nodes) && i < |nodes|
    ensures Distinct(nodes[..i] + nodes[i + 1..]) && nodes[i] !in nodes[..i] + nodes[i + 1..]
  {
  }

  /** From any node, following the links never comes back to it. */
  ghost function Follow(nbl: NetBufferList?, k: nat, nodes: seq<NetBufferList>): NetBufferList?
    reads nodes`next
  {
    if k == 0 || nbl !in nodes then nbl else Follow(nbl.next, k - 1, nodes)
  }

  lemma {:induction false} ChainFollow(head: NetBufferList?, nodes: seq<NetBufferList>, i: nat, k: nat)
    requires Chain(head, nodes) && i < |nodes|
    ensures Follow(nodes[i], k, nodes) == if i + k < |nodes| then nodes[i + k] else null
    decreases k
  {
    if k > 0 {
      if i + 1 < |nodes| {
        ChainFollow(head, nodes, i + 1, k - 1);
      } else {
        assert NextOf(nodes, i) == null;
      }
    }
  }

  /** The links are acyclic. */
  lemma ChainAcyclic(head: NetBufferList?, nodes: seq<NetBufferList>, i: nat, k: nat)
    requires Chain(head, nodes) && i < |nodes| && k > 0
    ensures Follow(nodes[i], k, nodes) != nodes[i]
  {
    ChainFollow(head, nodes, i, k);
  }

  /** A head links to only one sequence of nodes. */
  lemma {:induction false} ChainUnique(head: NetBufferList?, a: seq<NetBufferList>, b: seq<NetBufferList>)
    requires Chain(head, a) && Chain(head, b)
    ensures a == b
    decreases |a|
  {
    if a != [] && b != [] {
      ChainTail(head, a);
      ChainTail(head, b);
      ChainUnique(a[0].next, a[1..], b[1..]);
      assert a == [a[0]] + a[1..] && b == [b[0]] + b[1..];
    }
  }

  /** The queueing loop before its pass over list i: the lists before it are queued behind
      what was there, with their counts; the others are still linked to one another. */
  ghost predicate Queueing(q: Queue, was: seq<NetBufferList>, lists: seq<NetBufferList>, i: nat)
    reads q, q.nodes`next, lists`next, lists`count
  {
    && i <= |lists| && Distinct(lists) && q.Valid() && q.nodes == was + lists[..i]
    && (forall j | 0 <= j < i :: lists[j].count == Length(lists[j].firstNb))
    && (forall j {:trigger lists[j].next} | i <= j < |lists| :: lists[j].next == NextOf(lists, j))
    && (forall j | i <= j < |lists| :: lists[j] !in was)
  }

  lemma NotYetQueued(was: seq<NetBufferList>, lists: seq<NetBufferList>, i: nat)
    requires i < |lists| && Distinct(lists) && forall j | i <= j < |lists| :: lists[j] !in was
    ensures forall j | i <= j < |lists| :: lists[j] !in was + lists[..i]
    ensures was + lists[..i] + [lists[i]] == was + lists[..i + 1]
  {
  }

  // One pass of that loop.
  method QueueOne(q: Queue, ghost was: seq<NetBufferList>, ghost lists: seq<NetBufferList>, ghost i: nat, curr: NetBufferList)
    requires Queueing(q, was, lists, i) && i < |lists| && curr == lists[i]
    modifies q, was`next, lists`next, lists`count
    ensures Queueing(q, was, lists, i + 1)
  {
    NotYetQueued(was, lists, i);
    var cnt := CountNbl(curr.firstNb);
    curr.count := cnt;
    q.EnqueTail(curr);
  }

  /** The queueing loop of VenetSendNetBufs: a list's link is saved before the queue reuses
      it, so all lists are queued, in order, each with its true number of net buffers. */
  method QueueLists(q: Queue, sendList: NetBufferList?, ghost lists: seq<NetBufferList>)
    requires q.Valid() && Chain(sendList, lists) && forall x | x in lists :: x !in q.nodes
    modifies q, q.nodes`next, lists`next, lists`count
    ensures q.Valid() && q.nodes == old(q.nodes) + lists
    ensures forall j | 0 <= j < |lists| :: lists[j].count == Length(lists[j].firstNb)
  {
    var curr := sendList;
    ghost var i, was := 0, q.nodes;
    while curr != null
      invariant Queueing(q, was, lists, i) && curr == if i < |lists| then lists[i] else null
      decreases |lists| - i
    {
      var next := curr.next;
      QueueOne(q, was, lists, i, curr);
      curr := next;
      i := i + 1;
    }
    assert lists[..i] == lists;
  }

  /** SrSetListStatus: every list of a chain gets the status, and the links stay. */
  method SetListStatus(sendList: NetBufferList?, status: int, ghost lists: seq<NetBufferList>)
    requires Chain(sendList, lists)
    modifies lists`status
    ensures forall x | x in lists :: x.status == status
  {
    var curr := sendList;
    ghost var i := 0;
    while curr != null
      invariant i <= |lists| && curr == if i < |lists| then lists[i] else null
      invariant forall j | 0 <= j < i :: lists[j].status == status
      decreases |lists| - i
    {
      assert lists[i].next == NextOf(lists, i);
      var next := curr.next;
      curr.status := status;
      curr := next;
      i := i + 1;
    }
  }

  /** VenetSendNetBufs up to the send loop: an adapter that is not ready gives all lists the
      reason back and queues none; a ready one queues all of them. */
  method SendNetBufs(q: Queue, ready: bool, reason: int, sendList: NetBufferList?, ghost lists: seq<NetBufferList>)
    returns (queued: bool)
    requires q.Valid() && Chain(sendList, lists) && forall x | x in lists :: x !in q.nodes
    modifies q, q.nodes`next, lists`next, lists`count, lists`status
    ensures queued == ready && q.Valid()
    ensures ready ==> q.nodes == old(q.nodes) + lists && forall j | 0 <= j < |lists| :: lists[j].count == Length(lists[j].firstNb)
    ensures !ready ==> q.nodes == old(q.nodes) && Chain(sendList, lists) && forall x | x in lists :: x.status == reason
  {
    if !ready {
      SetListStatus(sendList, reason, lists);
      return false;
    }
    QueueLists(q, sendList, lists);
    queued := true;
  }
}
