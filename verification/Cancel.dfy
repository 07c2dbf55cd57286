/** SrCancelQueued: taking the lists with a cancel id out of the send queue and completing
    them. */
module Cancel {
  import opened SendQueue
  import opened Subsequences

  // A cancel id of 0 (NULL) means all.
  predicate Matches(cancelId: nat, x: NetBufferList) {
    cancelId == 0 || x.cancelId == cancelId
  }

  function Survivors(id: nat, nodes: seq<NetBufferList>): seq<NetBufferList> {
    if nodes == [] then []
    else
      var init, last := nodes[..|nodes| - 1], nodes[|nodes| - 1];
      if Matches(id, last) then Survivors(id, init) else Survivors(id, init) + [last]
  }

  // The matching lists, in the order the cancel queue hands them back: newest first.
  function Matching(id: nat, nodes: seq<NetBufferList>): seq<NetBufferList> {
    if nodes == [] then []
    else
      var init, last := nodes[..|nodes| - 1], nodes[|nodes| - 1];
      if Matches(id, last) then [last] + Matching(id, init) else Matching(id, init)
  }

  // The index of the first match, or the length if there is none.
  function FirstMatch(id: nat, nodes: seq<NetBufferList>): (k: nat)
    ensures k <= |nodes| && (k < |nodes| ==> Matches(id, nodes[k]))
    ensures forall i | 0 <= i < k :: !Matches(id, nodes[i])
  {
    if nodes == [] then 0
    else
      var k := FirstMatch(id, nodes[..|nodes| - 1]);
      if k < |nodes| - 1 then k
      else if Matches(id, nodes[|nodes| - 1]) then |nodes| - 1 else |nodes|
  }

  /** What the driver's traversal leaves queued: all but the first match. */
  function AfterFirst(id: nat, nodes: seq<NetBufferList>): seq<NetBufferList> {
    var k := FirstMatch(id, nodes);
    if k < |nodes| then nodes[..k] + nodes[k + 1..] else nodes
  }

  function First(id: nat, nodes: seq<NetBufferList>): seq<NetBufferList> {
    var k := FirstMatch(id, nodes);
    if k < |nodes| then [nodes[k]] else []
  }

  // What the first match means in terms of the lists' own ids.
  lemma FirstMeans(id: nat, nodes: seq<NetBufferList>)
    ensures id != 0 ==> forall x | x in First(id, nodes) :: x.cancelId == id
    ensures id != 0 ==> forall x | x in nodes && x.cancelId != id :: x in AfterFirst(id, nodes)
    ensures First(id, nodes) != [] <==> exists x | x in nodes :: id == 0 || x.cancelId == id
  {
    var k := FirstMatch(id, nodes);
    if k < |nodes| {
      assert nodes[k] in nodes;
      forall x | x in nodes && x != nodes[k]
        ensures x in nodes[..k] + nodes[k + 1..]
      {
        assert nodes == nodes[..k] + ([nodes[k]] + nodes[k + 1..]);
      }
    }
  }

  // The closing loop: the cancelled lists are completed with the given status.
  method CompleteAll(cancelled: Queue, reason: int) returns (completed: seq<NetBufferList>)
    requires cancelled.Valid()
    modifies cancelled, cancelled.nodes`next, cancelled.nodes`status
    ensures cancelled.nodes == [] && completed == old(cancelled.nodes)
    ensures forall x | x in completed :: x.status == reason
  {
    ghost var was := cancelled.nodes;
    completed := [];
    var empty := cancelled.Empty();
    while !empty
      invariant cancelled.Valid() && |completed| <= |was|
      invariant cancelled.nodes == was[|completed|..] && completed == was[..|completed|]
      invariant empty <==> cancelled.nodes == []
      invariant forall i | 0 <= i < |completed| :: was[i].status == reason
      decreases |was| - |completed|
    {
      assert cancelled.nodes[0] == was[|completed|];
      var nbl := cancelled.Deque();
      nbl.status := reason;
      completed := completed + [nbl];
      empty := cancelled.Empty();
    }
  }

  // The traversal before node i, nothing matched so far.
  ghost predicate Scanning(q: Queue, was: seq<NetBufferList>, id: nat, i: nat, curr: NetBufferList?, prev: NetBufferList?)
    reads q, q.nodes`next
  {
    && q.Valid() && q.nodes == was && i <= FirstMatch(id, was)
    && curr == (if i < |was| then was[i] else null)
    && (i > 0 ==> prev == was[i - 1]) && (curr != null ==> prev != null)
  }

  // The traversal has met its first match and cannot go on.
  ghost predicate Stopped(q: Queue, was: seq<NetBufferList>, id: nat, cancelled: Queue)
    reads q, q.nodes`next, cancelled, cancelled.nodes`next
  {
    && q.Valid() && q.nodes == AfterFirst(id, was)
    && cancelled.Valid() && cancelled.nodes == First(id, was)
    && forall x | x in cancelled.nodes :: x in was && x !in q.nodes
  }

  // The body of the traversal on a match.
  method TakeOut(q: Queue, cancelled: Queue, prev: NetBufferList, curr: NetBufferList, ghost was: seq<NetBufferList>,
                 ghost id: nat, ghost i: nat)
    requires Scanning(q, was, id, i, curr, prev) && Matches(id, curr) && i < |was|
    requires q != cancelled && cancelled.Valid() && cancelled.nodes == []
    modifies q, cancelled, was`next
    ensures Stopped(q, was, id, cancelled) && curr.next == null
  {
    CutDistinct(was, i);
    q.Unlink(prev, curr, i);
    cancelled.EnqueHead(curr);
  }

  /** SrCancelQueued as written.  Queueing a match for cancellation overwrites the link the
      traversal is about to follow, so it ends there. */
  method CancelQueued(q: Queue, cancelId: nat, reason: int) returns (completed: seq<NetBufferList>)
    requires q.Valid()
    modifies q, q.nodes`next, q.nodes`status
    ensures q.Valid() && q.nodes == AfterFirst(cancelId, old(q.nodes))
    ensures completed == First(cancelId, old(q.nodes)) && forall x | x in completed :: x.status == reason
    ensures cancelId != 0 ==> forall x | x in completed :: x.cancelId == cancelId
    ensures cancelId != 0 ==> forall x | x in old(q.nodes) && x.cancelId != cancelId :: x in q.nodes
    ensures completed != [] <==> exists x | x in old(q.nodes) :: cancelId == 0 || x.cancelId == cancelId
  {
    ghost var was := q.nodes;
    var cancelled := new Queue();
    var curr, prev := q.head, q.head;
    ghost var i, stopped := 0, false;
    while curr != null
      invariant fresh(cancelled) && i <= |was| && (stopped ==> curr == null)
      invariant !stopped ==> cancelled.Valid() && cancelled.nodes == [] && Scanning(q, was, cancelId, i, curr, prev)
      invariant stopped ==> Stopped(q, was, cancelId, cancelled)
      decreases |was| - i, curr != null
    {
      if Matches(cancelId, curr) {
        TakeOut(q, cancelled, prev, curr, was, cancelId, i);
        stopped := true;
      } else {
        i := i + 1;
      }
      prev := curr;
      curr := curr.next;
    }
    FirstMeans(cancelId, was);
    completed := CompleteAll(cancelled, reason);
  }

  // -------- the traversal that saves the link --------

  lemma {:induction false} Members(id: nat, nodes: seq<NetBufferList>)
    ensures forall x :: x in nodes <==> x in Survivors(id, nodes) || x in Matching(id, nodes)
    ensures forall x | x in Survivors(id, nodes) :: !Matches(id, x)
    ensures forall x | x in Matching(id, nodes) :: Matches(id, x)
  {
    if nodes != [] {
      Members(id, nodes[..|nodes| - 1]);
      assert nodes == nodes[..|nodes| - 1] + [nodes[|nodes| - 1]];
    }
  }

  // The two queues of that traversal: the survivors so far with the nodes to come, and the
  // matches so far.
  ghost predicate Queues(q: Queue, cancelled: Queue, kept: seq<NetBufferList>, rest: seq<NetBufferList>, gone: seq<NetBufferList>)
    reads q, q.nodes`next, cancelled, cancelled.nodes`next
  {
    && q != cancelled && q.Valid() && q.nodes == kept + rest
    && cancelled.Valid() && cancelled.nodes == gone
    && forall x | x in gone :: x !in q.nodes
  }

  // The body of that traversal on a match.
  method MoveOver(q: Queue, cancelled: Queue, prev: NetBufferList, curr: NetBufferList,
                  ghost kept: seq<NetBufferList>, ghost rest: seq<NetBufferList>, ghost gone: seq<NetBufferList>)
    requires Queues(q, cancelled, kept, [curr] + rest, gone) && (kept != [] ==> prev == kept[|kept| - 1])
    modifies q, cancelled, curr`next, (if kept == [] then {} else {prev})`next
    ensures Queues(q, cancelled, kept, rest, [curr] + gone)
  {
    ghost var all, k := q.nodes, |kept|;
    assert all[..k] == kept && all[k] == curr && all[k + 1..] == rest;
    CutDistinct(all, k);
    q.Unlink(prev, curr, k);
    assert forall x | x in gone :: x != curr && x !in kept;
    cancelled.EnqueHead(curr);
  }

  // The sequences of that traversal around node i.
  lemma ScanStep(id: nat, was: seq<NetBufferList>, i: nat)
    requires i < |was|
    ensures Survivors(id, was[..i + 1]) == if Matches(id, was[i]) then Survivors(id, was[..i]) else Survivors(id, was[..i]) + [was[i]]
    ensures Matching(id, was[..i + 1]) == if Matches(id, was[i]) then [was[i]] + Matching(id, was[..i]) else Matching(id, was[..i])
    ensures was[i..] == [was[i]] + was[i + 1..]
  {
    assert was[..i + 1][..i] == was[..i];
  }

  // That traversal before node i.
  ghost predicate ScanningAll(q: Queue, cancelled: Queue, was: seq<NetBufferList>, id: nat, i: nat,
                              curr: NetBufferList?, prev: NetBufferList?)
    reads q, q.nodes`next, cancelled, cancelled.nodes`next
  {
    && i <= |was| && Queues(q, cancelled, Survivors(id, was[..i]), was[i..], Matching(id, was[..i]))
    && curr == (if i < |was| then was[i] else null)
    && (curr != null ==> prev != null && prev in was)
    && var kept := Survivors(id, was[..i]); kept != [] ==> prev == kept[|kept| - 1]
  }

  lemma SkipOver(q: Queue, cancelled: Queue, was: seq<NetBufferList>, id: nat, i: nat, curr: NetBufferList, prev: NetBufferList, next: NetBufferList?)
    requires ScanningAll(q, cancelled, was, id, i, curr, prev) && curr == was[i] && !Matches(id, curr)
    requires next == if i + 1 < |was| then was[i + 1] else null
    ensures ScanningAll(q, cancelled, was, id, i + 1, next, curr)
  {
    ScanStep(id, was, i);
    var kept := Survivors(id, was[..i]);
    assert kept + was[i..] == kept + [curr] + was[i + 1..];
  }

  lemma NextInQueue(q: Queue, cancelled: Queue, was: seq<NetBufferList>, id: nat, i: nat, curr: NetBufferList, prev: NetBufferList)
    requires ScanningAll(q, cancelled, was, id, i, curr, prev)
    ensures i < |was| && curr.next == if i + 1 < |was| then was[i + 1] else null
  {
    var k := |Survivors(id, was[..i])|;
    assert q.nodes[k] == curr;
    assert q.nodes[k].next == NextOf(q.nodes, k);
  }

  method TakeNext(q: Queue, cancelled: Queue, ghost was: seq<NetBufferList>, id: nat, ghost i: nat,
                  curr: NetBufferList, prev: NetBufferList, next: NetBufferList?)
    requires ScanningAll(q, cancelled, was, id, i, curr, prev) && i < |was| && Matches(id, curr)
    requires next == if i + 1 < |was| then was[i + 1] else null
    modifies q, cancelled, was`next
    ensures ScanningAll(q, cancelled, was, id, i + 1, next, prev)
  {
    assert curr in was;
    ScanStep(id, was, i);
    MoveOver(q, cancelled, prev, curr, Survivors(id, was[..i]), was[i + 1..], Matching(id, was[..i]));
  }

  // The end of that traversal: the matches are completed, the survivors stay linked.
  method CompleteMatching(q: Queue, cancelled: Queue, ghost was: seq<NetBufferList>, id: nat, reason: int)
    returns (completed: seq<NetBufferList>)
    requires Queues(q, cancelled, Survivors(id, was), [], Matching(id, was))
    modifies cancelled, was`next, was`status
    ensures q.Valid() && q.nodes == Survivors(id, was)
    ensures completed == Matching(id, was) && forall x | x in completed :: x.status == reason
  {
    Members(id, was);
    ghost var gone := Matching(id, was);
    assert forall k | 0 <= k < |gone| :: gone[k] in gone && gone[k] in was && gone[k] !in q.nodes;
    completed := CompleteAll(cancelled, reason);
  }

  // One pass of that traversal.
  method PassOver(q: Queue, cancelled: Queue, ghost was: seq<NetBufferList>, id: nat, ghost i: nat,
                  curr: NetBufferList, prev: NetBufferList) returns (next: NetBufferList?, newPrev: NetBufferList)
    requires ScanningAll(q, cancelled, was, id, i, curr, prev)
    modifies q, cancelled, was`next
    ensures i < |was| && ScanningAll(q, cancelled, was, id, i + 1, next, newPrev)
  {
    next, newPrev := curr.next, prev;
    NextInQueue(q, cancelled, was, id, i, curr, prev);
    if Matches(id, curr) {
      TakeNext(q, cancelled, was, id, i, curr, prev, next);
    } else {
      SkipOver(q, cancelled, was, id, i, curr, prev, next);
      newPrev := curr;
    }
  }

  /** The same traversal with the link saved before the relinking, and prev advanced over
      survivors only: it takes out every match, whatever the queue. */
  method CancelAll(q: Queue, cancelId: nat, reason: int) returns (completed: seq<NetBufferList>)
    requires q.Valid()
    modifies q, q.nodes`next, q.nodes`status
    ensures q.Valid() && q.nodes == Survivors(cancelId, old(q.nodes))
    ensures completed == Matching(cancelId, old(q.nodes)) && forall x | x in completed :: x.status == reason
    ensures forall x :: x in completed <==> x in old(q.nodes) && (cancelId == 0 || x.cancelId == cancelId)
    ensures forall x :: x in q.nodes <==> x in old(q.nodes) && cancelId != 0 && x.cancelId != cancelId
  {
    ghost var was, i := q.nodes, 0;
    var cancelled := new Queue();
    var curr, prev := q.head, q.head;
    assert was[..0] == [];
    while curr != null
      invariant fresh(cancelled) && ScanningAll(q, cancelled, was, cancelId, i, curr, prev)
      decreases |was| - i
    {
      curr, prev := PassOver(q, cancelled, was, cancelId, i, curr, prev);
      i := i + 1;
    }
    assert was[..i] == was && was[i..] == [];
    Members(cancelId, was);
    completed := CompleteMatching(q, cancelled, was, cancelId, reason);
  }

  // -------- what the two traversals mean --------

  lemma {:induction false} AllMultiset(id: nat, nodes: seq<NetBufferList>)
    ensures multiset(Survivors(id, nodes)) + multiset(Matching(id, nodes)) == multiset(nodes)
  {
    if nodes != [] {
      var init, last := nodes[..|nodes| - 1], nodes[|nodes| - 1];
      assert nodes == init + [last];
      AllMultiset(id, init);
    }
  }

  lemma {:induction false} AllSubsequence(id: nat, nodes: seq<NetBufferList>)
    ensures Subsequence(Survivors(id, nodes), nodes)
  {
    if nodes != [] {
      var init, last := nodes[..|nodes| - 1], nodes[|nodes| - 1];
      AllSubsequence(id, init);
      if !Matches(id, last) {
        assert (Survivors(id, init) + [last])[..|Survivors(id, init)|] == Survivors(id, init);
      }
    }
  }

  /** The complete traversal partitions the queue: nothing is lost or duplicated, survivors
      keep their order and do not match, and completed lists all match. */
  lemma AllPartition(id: nat, nodes: seq<NetBufferList>)
    ensures multiset(Survivors(id, nodes)) + multiset(Matching(id, nodes)) == multiset(nodes)
    ensures Subsequence(Survivors(id, nodes), nodes)
    ensures forall x | x in Survivors(id, nodes) :: !Matches(id, x)
    ensures forall x | x in Matching(id, nodes) :: Matches(id, x)
  {
    AllMultiset(id, nodes);
    AllSubsequence(id, nodes);
    Members(id, nodes);
  }

  lemma CutMultiset<T>(a: seq<T>, k: nat)
    requires k < |a|
    ensures multiset(a[..k] + a[k + 1..]) + multiset([a[k]]) == multiset(a)
  {
    assert a == a[..k] + ([a[k]] + a[k + 1..]);
  }

  /** The traversal as written partitions the queue too. */
  lemma {:induction false} FirstPartition(id: nat, nodes: seq<NetBufferList>)
    ensures multiset(AfterFirst(id, nodes)) + multiset(First(id, nodes)) == multiset(nodes)
    ensures Subsequence(AfterFirst(id, nodes), nodes)
    ensures forall x | x in First(id, nodes) :: Matches(id, x)
  {
    var k := FirstMatch(id, nodes);
    if k < |nodes| {
      CutMultiset(nodes, k);
      CutSubsequence(nodes, k);
    } else {
      SubsequenceSelf(nodes);
    }
  }

  lemma {:induction false} NoMatch(id: nat, nodes: seq<NetBufferList>)
    ensures Matching(id, nodes) == [] <==> forall i | 0 <= i < |nodes| :: !Matches(id, nodes[i])
  {
    if nodes != [] { NoMatch(id, nodes[..|nodes| - 1]); }
  }

  lemma {:induction false} MatchingAppend(id: nat, a: seq<NetBufferList>, b: seq<NetBufferList>)
    ensures Matching(id, a + b) == Matching(id, b) + Matching(id, a)
    decreases |b|
  {
    if b == [] {
      assert a + b == a;
    } else {
      var init := b[..|b| - 1];
      assert (a + b)[..|a + b| - 1] == a + init;
      MatchingAppend(id, a, init);
    }
  }

  lemma {:induction false} MatchingAround(id: nat, front: seq<NetBufferList>, x: NetBufferList, back: seq<NetBufferList>)
    requires Matches(id, x) && forall i | 0 <= i < |front| :: !Matches(id, front[i])
    ensures Matching(id, front + back) == Matching(id, back)
    ensures Matching(id, front + ([x] + back)) == Matching(id, back) + [x]
  {
    NoMatch(id, front);
    MatchingAppend(id, front, back);
    MatchingAppend(id, front, [x] + back);
    MatchingAppend(id, [x], back);
    assert Matching(id, [x]) == [x];
  }

  lemma CutMatches(id: nat, nodes: seq<NetBufferList>, k: nat)
    requires k < |nodes| && Matches(id, nodes[k]) && forall i | 0 <= i < k :: !Matches(id, nodes[i])
    ensures |Matching(id, nodes)| == |Matching(id, nodes[..k] + nodes[k + 1..])| + 1
  {
    var front, back := nodes[..k], nodes[k + 1..];
    assert nodes == front + ([nodes[k]] + back);
    MatchingAround(id, front, nodes[k], back);
  }

  /** The traversal as written takes out all matches exactly when there is at most one. */
  lemma {:induction false} AllMatchesGoExactlyIfOne(id: nat, nodes: seq<NetBufferList>)
    ensures Matching(id, AfterFirst(id, nodes)) == [] <==> |Matching(id, nodes)| <= 1
  {
    var k := FirstMatch(id, nodes);
    if k < |nodes| {
      CutMatches(id, nodes, k);
    } else {
      NoMatch(id, nodes);
    }
  }

  /** A cancel of everything, which a reset and a halt rely on, completes only the head. */
  lemma CancelEverythingTakesHead(nodes: seq<NetBufferList>)
    requires nodes != []
    ensures AfterFirst(0, nodes) == nodes[1..] && First(0, nodes) == [nodes[0]]
  {
    var k := FirstMatch(0, nodes);
    assert Matches(0, nodes[0]);
  }
}
