/** What holds in every reachable state of the ring protocol, for every ring size and
    every interleaving of the pusher's and the popper's loads and stores. */
module RingTheorems {
  import opened Ring
  import opened RingProtocol
  import opened Runs

  datatype Move = PushMove(e: Event) | PopMove

  function Next(s: State, m: Move): State {
    if !Shape(s) then s
    else
      match m
      case PushMove(e) => PushStep(s, e)
      case PopMove => PopStep(s)
  }

  lemma NextKeeps(s: State, m: Move)
    requires Inv(s)
    ensures Inv(Next(s, m))
  {
    match m {
      case PushMove(e) => PushKeeps(s, e);
      case PopMove => PopKeeps(s);
    }
  }

  lemma ReachesKeeps(s: State, t: State)
    requires Inv(s) && Reaches(Next, s, t)
    ensures Inv(t)
  {
    var ms :| t == Run(Next, s, ms);
    forall s, m | Inv(s)
      ensures Inv(Next(s, m))
    {
      NextKeeps(s, m);
    }
    RunKeeps(Next, Inv, s, ms);
  }

  /** A state some run from a freshly initialised ring leads to. */
  ghost predicate Reachable(s: State) {
    exists n: nat, producer: Locale :: n > 0 && Reaches(Next, Init(n, producer), s)
  }

  lemma ReachableInv(s: State)
    requires Reachable(s)
    ensures Inv(s)
  {
    var n: nat, producer :| n > 0 && Reaches(Next, Init(n, producer), s);
    InitInv(n, producer);
    ReachesKeeps(Init(n, producer), s);
  }

  // Neither side is in the middle of an operation.
  predicate Settled(s: State) {
    s.ppc == PushIdle && (s.cpc == PopIdle || s.cpc == LoopTest)
  }

  lemma SettledIndex(s: State)
    requires Shape(s) && Counters(s) && HeadAndTail(s) && FullByte(s) && Settled(s)
    ensures Stands(s.idx, s.popped, |s.pushed|, s.n)
    ensures (|s.pushed| == s.popped + s.n ==> s.idx.full) && (|s.pushed| == s.popped ==> !s.idx.full)
  {
  }

  /** Whatever stale values the full byte went through, a settled ring counts right. */
  lemma SettledCountIsExact(s: State)
    requires Reachable(s) && Settled(s)
    ensures RingCount(s.idx, s.n) == |s.pushed| - s.popped
    ensures IdxFull(s.idx) <==> |s.pushed| - s.popped == s.n
  {
    ReachableInv(s);
    SettledIndex(s);
    CountIsExact(s.idx, s.popped, |s.pushed|, s.n);
  }

  /** In every state, also mid-operation: a full byte that is needed is set, and one that is
      set over an empty index is transient: a pop is about to clear it, or a push that has
      not stored its tail yet has just set it. */
  lemma FullByteIsSafe(s: State)
    requires Reachable(s)
    ensures s.tails == s.heads + s.n ==> s.idx.full
    ensures s.idx.full && s.tails == s.heads ==> s.cpc == TestFull || s.cpc == ClearFull || s.ppc == StoreTail
  {
    ReachableInv(s);
    StaleFull(s);
  }

  lemma StaleFull(s: State)
    requires Counters(s) && FullByte(s)
    ensures s.tails == s.heads + s.n ==> s.idx.full
    ensures s.idx.full && s.tails == s.heads ==> s.cpc == TestFull || s.cpc == ClearFull || s.ppc == StoreTail
  {
  }

  /** The counters never cross, and no push or pop that its caller's ownership test admitted
      is refused by its own guards. */
  lemma CountersNeverCross(s: State)
    requires Reachable(s)
    ensures s.popped <= s.heads <= |s.pushed| <= s.tails <= s.popped + s.n
    ensures s.ppc != PushFailed && s.cpc != PopFailed
  {
    ReachableInv(s);
  }

  /** The popping side owns exactly the slots of the pushed and not yet popped positions. */
  lemma OwnershipWindow(s: State, i: nat)
    requires Reachable(s) && i < s.n
    ensures Shape(s)
    ensures s.descs[i].sown == Other(s.producer) <==>
            exists a: nat :: s.popped <= a < |s.pushed| && Slot(a, s.n) == i
  {
    ReachableInv(s);
    var b := SlotCover(s.popped, i, s.n);
    assert OwnerAt(s, b);
    forall a: nat | s.popped <= a < |s.pushed| && Slot(a, s.n) == i
      ensures s.descs[i].sown == Other(s.producer)
    {
      assert OwnerAt(s, a);
    }
  }

  /** The two sides never work on the same descriptor. */
  lemma NeverBothHold(s: State)
    requires Reachable(s) && Pushing(s.ppc) && Popping(s.cpc)
    ensures Shape(s)
    ensures s.ppos != s.cpos
    ensures s.descs[s.ppos].sown == s.producer && s.descs[s.cpos].sown == Other(s.producer)
  {
    ReachableInv(s);
    assert OwnerAt(s, |s.pushed|);
    assert OwnerAt(s, s.popped);
  }

  /** Events are dispatched in the order they were pushed, none skipped, repeated or altered;
      what is not dispatched yet still sits in the buffer its descriptor's cookie names. */
  lemma DispatchIsFifo(s: State)
    requires Reachable(s)
    ensures Shape(s)
    ensures s.dispatched <= s.pushed
    ensures forall i | 0 <= i < s.n :: s.descs[i].cookie == i
    ensures forall a: nat | |s.dispatched| <= a < |s.pushed| :: s.bufs[Slot(a, s.n)] == s.pushed[a]
  {
    ReachableInv(s);
    forall a: nat | |s.dispatched| <= a < |s.pushed|
      ensures s.bufs[Slot(a, s.n)] == s.pushed[a]
    {
      assert ContentsAt(s, a);
    }
  }

  /** A settled ring whose popper has caught up holds only zeroed buffers. */
  lemma DrainedIsZeroed(s: State, i: nat)
    requires Reachable(s) && Settled(s) && s.popped == |s.pushed| && i < s.n
    ensures Shape(s)
    ensures s.bufs[i] == ZEROED
  {
    ReachableInv(s);
    var a := SlotCover(s.popped, i, s.n);
    assert ContentsAt(s, a);
  }

  // -------- whole operations --------

  lemma SoloAdmit(s0: State, s: State, e: Event) returns (t: State)
    requires Reaches(Next, s0, s) && Shape(s) && s.ppc == PushIdle && s.ppos == s.idx.tail
    requires s.descs[s.ppos].sown == s.producer
    ensures Reaches(Next, s0, t)
    ensures t == s.(ppc := TestHead, pev := e, bufs := s.bufs[s.descs[s.ppos].cookie := e])
  {
    t := After(Next, s0, s, PushMove(e));
    t := After(Next, s0, t, PushMove(e));
    t := After(Next, s0, t, PushMove(e));
    t := After(Next, s0, t, PushMove(e));
  }

  /** idx_tail_push without interference. */
  lemma SoloTailPush(s0: State, s: State) returns (t: State)
    requires Reaches(Next, s0, s) && Shape(s) && s.ppc == TestHead
    ensures Reaches(Next, s0, t)
    ensures t == s.(ppc := PushFlip, pnext := ModuloInc(s.idx.tail, s.n),
                    idx := TailPushed(s.idx, s.n), tails := s.tails + 1)
  {
    t := After(Next, s0, s, PushMove(s.pev));
    if t.ppc == SetFull {
      t := After(Next, s0, t, PushMove(s.pev));
    }
    t := After(Next, s0, t, PushMove(s.pev));
  }

  /** A push that nobody interrupts stores exactly what idx_tail_push computes. */
  lemma SoloPush(s0: State, s: State, e: Event) returns (t: State)
    requires Reaches(Next, s0, s) && Shape(s) && s.ppc == PushIdle && s.ppos == s.idx.tail
    requires s.descs[s.ppos].sown == s.producer
    ensures Reaches(Next, s0, t)
    ensures var d := s.descs[s.ppos]; var next := ModuloInc(s.ppos, s.n);
            t == s.(ppos := next, pnext := next, pev := e, idx := TailPushed(s.idx, s.n),
                    descs := s.descs[s.ppos := d.(sown := Other(s.producer))], bufs := s.bufs[d.cookie := e],
                    pushed := s.pushed + [e], tails := s.tails + 1)
  {
    t := SoloAdmit(s0, s, e);
    t := SoloTailPush(s0, t);
    t := After(Next, s0, t, PushMove(e));
    t := After(Next, s0, t, PushMove(e));
  }

  lemma SoloDispatch(s0: State, s: State) returns (t: State)
    requires Reaches(Next, s0, s) && Shape(s) && s.cpc == LoopTest && s.cpos == s.idx.head
    requires s.descs[s.cpos].sown != s.producer
    ensures Reaches(Next, s0, t)
    ensures var c := s.descs[s.cpos].cookie;
            t == s.(cpc := StoreHead, bufs := s.bufs[c := ZEROED], dispatched := s.dispatched + [s.bufs[c]])
  {
    t := After(Next, s0, s, PopMove);
    t := After(Next, s0, t, PopMove);
    t := After(Next, s0, t, PopMove);
    t := After(Next, s0, t, PopMove);
    t := After(Next, s0, t, PopMove);
  }

  lemma SoloHeadPop(s0: State, s: State) returns (t: State)
    requires Reaches(Next, s0, s) && Shape(s) && s.cpc == StoreHead
    ensures Reaches(Next, s0, t)
    ensures t == s.(cpc := PopFlip, idx := HeadPopped(s.idx, s.n), heads := s.heads + 1)
  {
    t := After(Next, s0, s, PopMove);
    t := After(Next, s0, t, PopMove);
    if t.cpc == ClearFull {
      t := After(Next, s0, t, PopMove);
    }
  }

  lemma SoloPopFlip(s0: State, s: State) returns (t: State)
    requires Reaches(Next, s0, s) && Shape(s) && s.cpc == PopFlip
    ensures Reaches(Next, s0, t)
    ensures t == s.(cpc := LoopTest, cpos := ModuloInc(s.cpos, s.n),
                    descs := s.descs[s.cpos := s.descs[s.cpos].(sown := s.producer)], popped := s.popped + 1)
  {
    t := After(Next, s0, s, PopMove);
    t := After(Next, s0, t, PopMove);
  }

  /** A pass of the drain loop that nobody interrupts dispatches and zeroes one buffer, and
      stores exactly what ioq_iter_pop computes. */
  lemma SoloPop(s0: State, s: State) returns (t: State)
    requires Reaches(Next, s0, s) && Shape(s) && s.cpc == LoopTest && s.cpos == s.idx.head
    requires s.descs[s.cpos].sown != s.producer
    ensures Reaches(Next, s0, t)
    ensures var d := s.descs[s.cpos];
            t == s.(cpos := ModuloInc(s.cpos, s.n), idx := HeadPopped(s.idx, s.n),
                    descs := s.descs[s.cpos := d.(sown := s.producer)], bufs := s.bufs[d.cookie := ZEROED],
                    dispatched := s.dispatched + [s.bufs[d.cookie]], heads := s.heads + 1, popped := s.popped + 1)
  {
    t := SoloDispatch(s0, s);
    t := SoloHeadPop(s0, t);
    t := SoloPopFlip(s0, t);
  }

  // A pusher at rest stands at the tail, and a popper in its loop at the head.
  lemma AtTailAndHead(s: State)
    requires Shape(s) && Counters(s) && HeadAndTail(s) && PushPosition(s) && PopPosition(s)
    ensures s.ppc == PushIdle ==> s.ppos == s.idx.tail
    ensures s.cpc == LoopTest ==> s.cpos == s.idx.head
  {
  }

  // All of a push by a settled pusher that has room.
  lemma PushOne(s0: State, s: State, e: Event) returns (t: State)
    requires Reaches(Next, s0, s) && Inv(s) && s.ppc == PushIdle && |s.pushed| < s.popped + s.n
    ensures Reaches(Next, s0, t) && Inv(t) && t.ppc == PushIdle && t.cpc == s.cpc && t.n == s.n
    ensures |t.pushed| == |s.pushed| + 1 && t.popped == s.popped
  {
    AtTailAndHead(s);
    PusherSeesRoom(s);
    ReachesSelf<State, Move>(Next, s);
    t := SoloPush(s, s, e);
    ReachesKeeps(s, t);
    t := SoloPush(s0, s, e);
  }

  lemma {:induction false} PushMany(n: nat, k: nat, e: Event) returns (s: State)
    requires k <= n && 0 < n
    ensures Reaches(Next, Init(n, South), s) && Inv(s) && s.ppc == PushIdle && s.cpc == PopIdle && s.n == n
    ensures |s.pushed| == k && s.popped == 0
  {
    var s0 := Init(n, South);
    if k == 0 {
      s := s0;
      InitInv(n, South);
      ReachesSelf<State, Move>(Next, s0);
    } else {
      s := PushMany(n, k - 1, e);
      s := PushOne(s0, s, e);
    }
  }

  // A push of the last slot up to its store of the byte.
  lemma PushToSetFull(s0: State, s: State, e: Event) returns (t: State)
    requires Reaches(Next, s0, s) && Inv(s) && s.ppc == PushIdle && |s.pushed| + 1 == s.popped + s.n && s.cpc == PopIdle
    ensures Reaches(Next, s0, t) && t.ppc == SetFull && t.cpc == PopIdle && t.n == s.n
    ensures t.pushed == s.pushed && t.popped == s.popped
  {
    AtTailAndHead(s);
    PusherSeesRoom(s);
    t := SoloAdmit(s0, s, e);
    HeadTest(s.(ppc := TestHead));
    t := After(Next, s0, t, PushMove(e));
  }

  // The popper makes room meanwhile.
  lemma PopOne(s0: State, s: State) returns (t: State)
    requires Reaches(Next, s0, s) && Inv(s) && s.cpc == LoopTest && s.popped < |s.pushed|
    ensures Reaches(Next, s0, t) && Inv(t) && t.cpc == LoopTest && t.ppc == s.ppc && t.n == s.n
    ensures t.pushed == s.pushed && t.popped == s.popped + 1
  {
    AtTailAndHead(s);
    PopperSeesWork(s);
    ReachesSelf<State, Move>(Next, s);
    t := SoloPop(s, s);
    ReachesKeeps(s, t);
    t := SoloPop(s0, s);
  }

  lemma {:induction false} PopMany(s0: State, s: State, k: nat) returns (t: State)
    requires Reaches(Next, s0, s) && Inv(s) && s.cpc == LoopTest && s.popped + k <= |s.pushed|
    ensures Reaches(Next, s0, t) && Inv(t) && t.cpc == LoopTest && t.ppc == s.ppc && t.n == s.n
    ensures t.pushed == s.pushed && t.popped == s.popped + k
  {
    t := s;
    if k > 0 {
      t := PopMany(s0, s, k - 1);
      t := PopOne(s0, t);
    }
  }

  // The push sets the byte all the same, and ends.
  lemma EndStalePush(s0: State, s: State) returns (t: State)
    requires Reaches(Next, s0, s) && Shape(s) && s.ppc == SetFull && s.cpc == LoopTest
    ensures Reaches(Next, s0, t) && Settled(t) && t.n == s.n && t.idx.full
    ensures |t.pushed| == |s.pushed| + 1 && t.popped == s.popped
  {
    t := After(Next, s0, s, PushMove(s.pev));
    t := After(Next, s0, t, PushMove(s.pev));
    t := After(Next, s0, t, PushMove(s.pev));
    t := After(Next, s0, t, PushMove(s.pev));
  }

  // A settled ring of n slots that holds k events with the byte set.
  lemma FullByteOver(n: nat, k: nat, e: Event) returns (s: State)
    requires 1 <= k <= n
    ensures Reaches(Next, Init(n, South), s) && FullOver(s, n, k)
  {
    var s0 := Init(n, South);
    s := PushMany(n, n - 1, e);
    s := PushToSetFull(s0, s, e);
    s := After(Next, s0, s, PopMove);
    InitInv(n, South);
    ReachesKeeps(s0, s);
    s := PopMany(s0, s, n - k);
    s := EndStalePush(s0, s);
  }

  // The full byte is set over k events, neither side being in an operation.
  predicate FullOver(s: State, n: nat, k: int) {
    Settled(s) && s.n == n && s.idx.full && |s.pushed| - s.popped == k
  }

  /** Exactly when a settled ring can have the byte set: over any number of events, full or
      not, but never over none. */
  lemma FullByteSettledExactly(n: nat, k: int)
    ensures (exists s :: Reachable(s) && FullOver(s, n, k)) <==> 1 <= k <= n
  {
    if 1 <= k <= n {
      var s := FullByteOver(n, k, ZEROED);
    }
    forall s | Reachable(s) && FullOver(s, n, k)
      ensures 1 <= k <= n
    {
      ReachableInv(s);
    }
  }

  /** The byte can be set on a settled ring that is not full exactly if the ring has more than
      one slot: the popper makes room between the pusher's head test and its store. */
  lemma FullByteCanBeStale(n: nat)
    ensures (exists s, k :: Reachable(s) && FullOver(s, n, k) && k < n) <==> n >= 2
  {
    if n >= 2 {
      var s := FullByteOver(n, 1, ZEROED);
      assert Reachable(s);
    }
    forall s, k | Reachable(s) && FullOver(s, n, k)
      ensures 1 <= k
    {
      ReachableInv(s);
    }
  }
}
