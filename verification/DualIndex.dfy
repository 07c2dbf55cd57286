/** The valid and in-use indexes driven together, at the granularity of loads and stores:
    North pushes with a dual iterator and reaps the valid index without flipping the owner
    bit; South pops the in-use index.  The in-use side of a push, and South, are the ring
    protocol unchanged. */
module DualIndex {
  import opened Ring
  import opened Runs
  import R = RingProtocol

  /** North's thread: ioq_iter_push with dualidx set, or ioq_iter_pop on the valid index. */
  datatype NorthPc =
    | NIdle
    | NFill | NGuardTail | NGuardOwner
    | NValidTest | NValidSetFull | NValidStore
    | NInuse | NCompare | NFlip | NSeek | NFailed
    | RGuardHead | RGuardOwner | RStoreHead | RTestFull | RClearFull

  datatype State = State(
    // the in-use index, the descriptors and South
    ring: R.State,
    // the valid index, North's reap position and computed tail
    valid: Idx, npc: NorthPc, rpos: nat, vnext: nat,
    // history: head and tail stores to the valid index
    vheads: nat, vtails: nat)

  datatype Move = NorthPush(e: R.Event) | NorthReap | SouthPop

  function Init(n: nat): State
    requires n > 0
  {
    State(R.Init(n, North), Idx(0, 0, false), NIdle, 0, 0, 0, 0)
  }

  // North's caller pushes only while the valid index is not full, and reaps only while it
  // is not empty.
  function StartStep(s: State, m: Move): State
    requires R.Shape(s.ring)
  {
    match m
    case NorthPush(e) =>
      if IdxFull(s.valid) then s
      else s.(npc := NFill, ring := s.ring.(ppc := R.Fill, pev := e))
    case NorthReap =>
      if RingCount(s.valid, s.ring.n) == 0 then s else s.(npc := RGuardHead, rpos := s.valid.head)
    case SouthPop => s
  }

  function NorthStep(s: State, m: Move): (t: State)
    requires R.Shape(s.ring)
    ensures R.Shape(t.ring) && t.ring.n == s.ring.n && t.ring.popped == s.ring.popped
  {
    var n := s.ring.n;
    match s.npc
    case NIdle => StartStep(s, m)
    case NFill => s.(npc := NGuardTail, ring := R.PushStep(s.ring, R.ZEROED))
    case NGuardTail =>
      if s.ring.ppos != s.valid.tail then s.(npc := NFailed)
      else s.(npc := NGuardOwner, ring := s.ring.(ppc := R.PushGuardOwner))
    case NGuardOwner =>
      if s.ring.descs[s.ring.ppos].sown != North then s.(npc := NFailed)
      else s.(npc := NValidTest, ring := R.PushStep(s.ring, R.ZEROED))
    case NValidTest =>
      var next := ModuloInc(s.valid.tail, n);
      s.(vnext := next, npc := if s.valid.head == next then NValidSetFull else NValidStore)
    case NValidSetFull => s.(npc := NValidStore, valid := s.valid.(full := true))
    case NValidStore => s.(npc := NInuse, valid := s.valid.(tail := s.vnext), vtails := s.vtails + 1)
    case NInuse =>
      var ring := R.PushStep(s.ring, R.ZEROED);
      s.(ring := ring, npc := if ring.ppc == R.PushFlip then NCompare else NInuse)
    case NCompare => s.(npc := if s.ring.idx.tail != s.valid.tail then NFailed else NFlip)
    case NFlip => s.(npc := NSeek, ring := R.PushStep(s.ring, R.ZEROED))
    case NSeek => s.(npc := NIdle, ring := R.PushStep(s.ring, R.ZEROED))
    case NFailed => s
    case RGuardHead => s.(npc := if s.rpos != s.valid.head then NFailed else RGuardOwner)
    case RGuardOwner =>
      // South has not popped this descriptor yet: the reap returns -1
      if s.rpos < n && s.ring.descs[s.rpos].sown == North then s.(npc := RStoreHead) else s.(npc := NIdle)
    case RStoreHead => s.(npc := RTestFull, valid := s.valid.(head := ModuloInc(s.valid.head, n)), vheads := s.vheads + 1)
    case RTestFull => s.(npc := if s.valid.full then RClearFull else NIdle)
    case RClearFull => s.(npc := NIdle, valid := s.valid.(full := false))
  }

  function Next(s: State, m: Move): State {
    if !R.Shape(s.ring) then s
    else if m == SouthPop then s.(ring := R.PopStep(s.ring))
    else NorthStep(s, m)
  }

  // -------- the inductive invariant --------

  // North's thread drives the pusher of the ring protocol.
  predicate InStep(s: State) {
    && s.ring.producer == North
    && match s.npc
       case NFill => s.ring.ppc == R.Fill
       case NGuardTail => s.ring.ppc == R.PushGuardTail
       case NGuardOwner => s.ring.ppc == R.PushGuardOwner
       case NValidTest => s.ring.ppc == R.TestHead
       case NValidSetFull => s.ring.ppc == R.TestHead
       case NValidStore => s.ring.ppc == R.TestHead
       case NInuse => s.ring.ppc == R.TestHead || s.ring.ppc == R.SetFull || s.ring.ppc == R.StoreTail
       case NCompare => s.ring.ppc == R.PushFlip
       case NFlip => s.ring.ppc == R.PushFlip
       case NSeek => s.ring.ppc == R.PushSeek
       case NFailed => false
       case _ => s.ring.ppc == R.PushIdle
  }

  // North is in a push and has not advanced the valid tail yet.
  predicate BeforeValidStore(pc: NorthPc) {
    pc.NFill? || pc.NGuardTail? || pc.NGuardOwner? || pc.NValidTest? || pc.NValidSetFull? || pc.NValidStore?
  }

  // The valid index is reaped no further than South has popped.
  predicate Order(s: State) {
    && s.vheads <= s.ring.popped && s.vheads <= s.vtails
    && s.vtails == s.ring.tails + (if s.npc == NInuse then 1 else 0)
    && s.vtails <= s.vheads + s.ring.n
    && (BeforeValidStore(s.npc) ==> s.vtails < s.vheads + s.ring.n)
    && (s.npc == RGuardHead || s.npc == RGuardOwner ==> s.vheads < s.vtails)
    && (s.npc == RStoreHead ==> s.vheads < s.ring.popped)
    && (s.npc == RTestFull || s.npc == RClearFull ==> s.vtails < s.vheads + s.ring.n)
  }

  predicate ValidPositions(s: State) {
    && s.ring.n > 0 && s.valid.head == Slot(s.vheads, s.ring.n) && s.valid.tail == Slot(s.vtails, s.ring.n)
    && (s.npc == NValidSetFull || s.npc == NValidStore ==> s.vnext == Slot(s.vtails + 1, s.ring.n))
    && (s.npc == RGuardHead || s.npc == RGuardOwner ==> s.rpos == s.valid.head)
  }

  predicate ValidFull(s: State) {
    && (s.vtails == s.vheads + s.ring.n ==> s.valid.full)
    && (s.npc == NValidSetFull ==> s.vtails + 1 == s.vheads + s.ring.n)
    && (s.npc == NValidStore && s.vtails + 1 == s.vheads + s.ring.n ==> s.valid.full)
    && (s.valid.full && s.vtails == s.vheads ==> s.npc == RTestFull || s.npc == RClearFull || s.npc == NValidStore)
  }

  ghost predicate Inv(s: State) {
    R.Inv(s.ring) && InStep(s) && Order(s) && ValidPositions(s) && ValidFull(s)
  }

  lemma InitInv(n: nat)
    requires n > 0
    ensures Inv(Init(n))
  {
    R.InitInv(n, North);
  }

  lemma SouthLeavesNorth(s: State)
    requires R.Shape(s.ring) && InStep(s) && Order(s) && ValidPositions(s) && ValidFull(s)
    ensures var t := s.(ring := R.PopStep(s.ring)); InStep(t) && Order(t) && ValidPositions(t) && ValidFull(t)
  {
  }

  lemma SouthKeeps(s: State)
    requires Inv(s)
    ensures Inv(s.(ring := R.PopStep(s.ring)))
  {
    R.PopKeeps(s.ring);
    SouthLeavesNorth(s);
  }

  // Between North's operations the valid index counts right.
  lemma ValidExact(s: State)
    requires R.Inv(s.ring) && Order(s) && ValidPositions(s) && ValidFull(s) && s.npc == NIdle
    ensures Exact(s.valid, s.vheads, s.vtails, s.ring.n)
    ensures IdxFull(s.valid) <==> s.vtails == s.vheads + s.ring.n
    ensures RingCount(s.valid, s.ring.n) == s.vtails - s.vheads
  {
    CountIsExact(s.valid, s.vheads, s.vtails, s.ring.n);
  }

  /** The guards of a push admitted by the valid index pass, and the tails compared at its
      end agree: line 125's failure is unreachable. */
  lemma PushGuardsPass(s: State)
    requires R.Shape(s.ring) && R.Counters(s.ring) && R.HeadAndTail(s.ring) && R.PushPosition(s.ring) && R.Owners(s.ring)
    requires InStep(s) && Order(s) && ValidPositions(s)
    ensures s.npc == NGuardTail ==> s.ring.ppos == s.valid.tail == s.ring.idx.tail
    ensures s.npc == NGuardOwner ==> s.ring.descs[s.ring.ppos].sown == North
    ensures s.npc == NCompare ==> s.ring.idx.tail == s.valid.tail
  {
    R.PusherSeesRoom(s.ring);
  }

  // A push the valid index admits finds its descriptor owned by North.
  lemma StartOwnsSlot(s: State, e: R.Event)
    requires Inv(s) && s.npc == NIdle && !IdxFull(s.valid)
    ensures s.ring.(ppc := R.Fill, pev := e) == R.PushStep(s.ring, e)
  {
    ValidExact(s);
    R.PusherSeesRoom(s.ring);
  }

  lemma NorthKeepsRing(s: State, m: Move)
    requires Inv(s)
    ensures R.Inv(NorthStep(s, m).ring)
  {
    R.PushKeeps(s.ring, R.ZEROED);
    PushGuardsPass(s);
    match m {
      case NorthPush(e) =>
        R.PushKeeps(s.ring, e);
        if s.npc == NIdle && !IdxFull(s.valid) { StartOwnsSlot(s, e); }
      case _ =>
    }
  }

  lemma NorthKeepsInStep(s: State, m: Move)
    requires R.Shape(s.ring) && InStep(s) && s.npc != NFailed && NorthStep(s, m).npc != NFailed
    ensures InStep(NorthStep(s, m))
  {
  }

  lemma NorthNeverFails(s: State, m: Move)
    requires Inv(s)
    ensures NorthStep(s, m).npc != NFailed
  {
    PushGuardsPass(s);
  }

  /** A descriptor North may reap has been popped by South. */
  lemma ReapedWasPopped(s: State)
    requires Inv(s) && s.npc == RGuardOwner
    ensures s.rpos < s.ring.n
    ensures s.ring.descs[s.rpos].sown == North ==> s.vheads < s.ring.popped
  {
    assert R.OwnerAt(s.ring, s.ring.popped);
  }

  lemma StartKeepsOrder(s: State, m: Move)
    requires Inv(s) && s.npc == NIdle
    ensures Order(StartStep(s, m))
  {
    ValidExact(s);
  }

  lemma NorthKeepsOrder(s: State, m: Move)
    requires R.Shape(s.ring) && R.Counters(s.ring) && InStep(s) && Order(s) && s.npc != NIdle
    requires s.npc == RGuardOwner && s.rpos < s.ring.n && s.ring.descs[s.rpos].sown == North ==> s.vheads < s.ring.popped
    ensures Order(NorthStep(s, m))
  {
  }

  lemma StartKeepsPositions(s: State, m: Move)
    requires R.Shape(s.ring) && ValidPositions(s) && s.npc == NIdle
    ensures ValidPositions(StartStep(s, m))
  {
  }

  predicate Reaping(pc: NorthPc) {
    pc.RGuardHead? || pc.RGuardOwner? || pc.RStoreHead? || pc.RTestFull? || pc.RClearFull?
  }

  lemma PushKeepsPositions(s: State, m: Move)
    requires R.Shape(s.ring) && ValidPositions(s) && s.npc != NIdle && !Reaping(s.npc)
    ensures ValidPositions(NorthStep(s, m))
  {
    if s.npc == NValidTest { SlotNext(s.vtails, s.ring.n); }
  }

  lemma ReapKeepsPositions(s: State, m: Move)
    requires R.Shape(s.ring) && ValidPositions(s) && Reaping(s.npc)
    ensures ValidPositions(NorthStep(s, m))
  {
    if s.npc == RStoreHead { SlotNext(s.vheads, s.ring.n); }
  }

  lemma NorthKeepsPositions(s: State, m: Move)
    requires R.Shape(s.ring) && ValidPositions(s)
    ensures ValidPositions(NorthStep(s, m))
  {
    if s.npc == NIdle {
      StartKeepsPositions(s, m);
    } else if Reaping(s.npc) {
      ReapKeepsPositions(s, m);
    } else {
      PushKeepsPositions(s, m);
    }
  }

  // The head test of the valid index finds the slot that would make it full.
  lemma HeadTest(s: State)
    requires R.Shape(s.ring) && Order(s) && ValidPositions(s) && s.npc == NValidTest
    ensures s.valid.head == ModuloInc(s.valid.tail, s.ring.n) <==> s.vtails + 1 == s.vheads + s.ring.n
  {
    SlotAdd(s.vheads, s.vtails + 1 - s.vheads, s.ring.n);
  }

  lemma NorthKeepsFull(s: State, m: Move)
    requires R.Shape(s.ring) && Order(s) && ValidFull(s) && s.npc != NFailed && NorthStep(s, m).npc != NFailed
    requires s.npc == NValidTest ==> (s.valid.head == ModuloInc(s.valid.tail, s.ring.n) <==> s.vtails + 1 == s.vheads + s.ring.n)
    ensures ValidFull(NorthStep(s, m))
  {
  }

  lemma NextKeeps(s: State, m: Move)
    requires Inv(s)
    ensures Inv(Next(s, m))
  {
    if m == SouthPop {
      SouthKeeps(s);
    } else {
      NorthNeverFails(s, m);
      NorthKeepsRing(s, m);
      NorthKeepsInStep(s, m);
      if s.npc == RGuardOwner { ReapedWasPopped(s); }
      if s.npc == NIdle {
        StartKeepsOrder(s, m);
      } else {
        NorthKeepsOrder(s, m);
      }
      NorthKeepsPositions(s, m);
      if s.npc == NValidTest { HeadTest(s); }
      NorthKeepsFull(s, m);
    }
  }

  lemma RunInv(n: nat, ms: seq<Move>)
    requires n > 0
    ensures Inv(Run(Next, Init(n), ms))
  {
    forall s, m | Inv(s)
      ensures Inv(Next(s, m))
    {
      NextKeeps(s, m);
    }
    InitInv(n);
    RunKeeps(Next, Inv, Init(n), ms);
  }

  // -------- what every run guarantees --------

  /** In absolute positions: the valid index is reaped behind South's head, South's head is
      behind the in-use tail, that is behind the valid tail, and no lap is lost.  No guard
      of a push fails, and the tails compared at its end agree. */
  lemma IndexesInOrder(n: nat, ms: seq<Move>)
    requires n > 0
    ensures var s := Run(Next, Init(n), ms);
            && s.vheads <= s.ring.popped <= s.ring.heads <= |s.ring.pushed| <= s.ring.tails <= s.vtails
            && s.vtails <= s.vheads + s.ring.n
            && s.npc != NFailed && s.ring.cpc != R.PopFailed
            && s.ring.dispatched <= s.ring.pushed
  {
    RunInv(n, ms);
  }

  lemma AtRest(s: State)
    requires R.Inv(s.ring) && Order(s) && ValidPositions(s) && s.npc == NIdle
    ensures s.valid.tail == s.ring.idx.tail
  {
  }

  /** Between North's operations the two tails agree and the valid index counts right. */
  lemma TailsAgree(n: nat, ms: seq<Move>)
    requires n > 0
    ensures var s := Run(Next, Init(n), ms);
            s.npc == NIdle ==>
              && s.valid.tail == s.ring.idx.tail
              && RingCount(s.valid, s.ring.n) == s.vtails - s.vheads
              && (IdxFull(s.valid) <==> s.vtails == s.vheads + s.ring.n)
  {
    RunInv(n, ms);
    var s := Run(Next, Init(n), ms);
    if s.npc == NIdle {
      ValidExact(s);
      AtRest(s);
    }
  }
}
