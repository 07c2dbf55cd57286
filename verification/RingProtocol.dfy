/** One pusher and one popper on the same index of an IOQ, at the granularity of the
    individual loads and stores of shared memory.  Each thread is a program counter with
    its local variables; a move runs the next load or store of one thread. */
module RingProtocol {
  import opened Ring

  /** The contents of one event buffer. */
  datatype Event = Event(eventid: nat, payload: int)

  const ZEROED := Event(0, 0)

  /** A descriptor: the cookie names the event buffer it was given at initialisation. */
  datatype Desc = Desc(cookie: nat, sown: Locale)

  /** ioq_iter_push, preceded by its caller's ownership test and fill of the buffer. */
  datatype PushPc =
    | PushIdle | Fill | PushGuardTail | PushGuardOwner
    | TestHead | SetFull | StoreTail | PushFlip | PushSeek | PushFailed

  /** eventq_wakeup's loop around ioq_iter_pop. */
  datatype PopPc =
    | PopIdle | LoopTest | Dispatch | Zero | PopGuardHead | PopGuardOwner
    | StoreHead | TestFull | ClearFull | PopFlip | PopSeek | PopFailed

  datatype State = State(
    // the ring
    n: nat, producer: Locale, idx: Idx, descs: seq<Desc>, bufs: seq<Event>,
    // the pusher's iterator position, computed tail and event
    ppc: PushPc, ppos: nat, pnext: nat, pev: Event,
    // the popper's iterator position
    cpc: PopPc, cpos: nat,
    // history: events whose push flipped the owner bit, events dispatched, and the
    // number of tail stores, head stores and pops that flipped the owner bit
    pushed: seq<Event>, dispatched: seq<Event>, tails: nat, heads: nat, popped: nat)

  predicate Shape(s: State) {
    && s.n > 0 && |s.descs| == s.n && |s.bufs| == s.n
    && s.ppos < s.n && s.cpos < s.n && s.idx.head < s.n && s.idx.tail < s.n
    && s.pnext < s.n
    && forall i | 0 <= i < s.n :: s.descs[i].cookie < s.n
  }

  /** The state eventq_init leaves: every descriptor owned by the producing side. */
  function Init(n: nat, producer: Locale): (s: State)
    requires n > 0
    ensures Shape(s)
  {
    State(n, producer, Idx(0, 0, false),
          seq(n, (i: nat) => Desc(i, producer)), seq(n, i => ZEROED),
          PushIdle, 0, 0, ZEROED, PopIdle, 0, [], [], 0, 0, 0)
  }

  function PushStep(s: State, e: Event): (t: State)
    requires Shape(s)
    ensures Shape(t) && t.n == s.n && t.producer == s.producer
    ensures t.cpc == s.cpc && t.cpos == s.cpos && t.dispatched == s.dispatched && t.heads == s.heads && t.popped == s.popped
  {
    var d := s.descs[s.ppos];
    match s.ppc
    case PushIdle => if d.sown == s.producer then s.(ppc := Fill, pev := e) else s
    case Fill => s.(ppc := PushGuardTail, bufs := s.bufs[d.cookie := s.pev])
    case PushGuardTail => if s.ppos != s.idx.tail then s.(ppc := PushFailed) else s.(ppc := PushGuardOwner)
    case PushGuardOwner => if d.sown != s.producer then s.(ppc := PushFailed) else s.(ppc := TestHead)
    case TestHead =>
      var next := ModuloInc(s.idx.tail, s.n);
      s.(pnext := next, ppc := if s.idx.head == next then SetFull else StoreTail)
    case SetFull => s.(ppc := StoreTail, idx := s.idx.(full := true))
    case StoreTail => s.(ppc := PushFlip, idx := s.idx.(tail := s.pnext), tails := s.tails + 1)
    case PushFlip =>
      s.(ppc := PushSeek, descs := s.descs[s.ppos := d.(sown := Other(s.producer))], pushed := s.pushed + [s.pev])
    case PushSeek => s.(ppc := PushIdle, ppos := ModuloInc(s.ppos, s.n))
    case PushFailed => s
  }

  function PopStep(s: State): (t: State)
    requires Shape(s)
    ensures Shape(t) && t.n == s.n && t.producer == s.producer
    ensures t.ppc == s.ppc && t.ppos == s.ppos && t.pnext == s.pnext && t.pev == s.pev && t.pushed == s.pushed && t.tails == s.tails
  {
    var d := s.descs[s.cpos];
    match s.cpc
    case PopIdle => s.(cpc := LoopTest, cpos := s.idx.head)
    case LoopTest => s.(cpc := if d.sown == s.producer then PopIdle else Dispatch)
    case Dispatch => s.(cpc := Zero, dispatched := s.dispatched + [s.bufs[d.cookie]])
    case Zero => s.(cpc := PopGuardHead, bufs := s.bufs[d.cookie := ZEROED])
    case PopGuardHead => if s.cpos != s.idx.head then s.(cpc := PopFailed) else s.(cpc := PopGuardOwner)
    case PopGuardOwner => if d.sown == s.producer then s.(cpc := PopFailed) else s.(cpc := StoreHead)
    case StoreHead => s.(cpc := TestFull, idx := s.idx.(head := ModuloInc(s.idx.head, s.n)), heads := s.heads + 1)
    case TestFull => s.(cpc := if s.idx.full then ClearFull else PopFlip)
    case ClearFull => s.(cpc := PopFlip, idx := s.idx.(full := false))
    case PopFlip => s.(cpc := PopSeek, descs := s.descs[s.cpos := d.(sown := s.producer)], popped := s.popped + 1)
    case PopSeek => s.(cpc := LoopTest, cpos := ModuloInc(s.cpos, s.n))
    case PopFailed => s
  }

  // -------- the inductive invariant --------

  // The pusher owns its slot and has not flipped it yet.
  predicate Pushing(pc: PushPc) {
    !pc.PushIdle? && !pc.PushSeek? && !pc.PushFailed?
  }

  // The pusher has written its event to the buffer.
  predicate Filled(pc: PushPc) {
    Pushing(pc) && !pc.Fill?
  }

  // The popper has found its slot full and has not flipped it yet.
  predicate Popping(pc: PopPc) {
    !pc.PopIdle? && !pc.LoopTest? && !pc.PopSeek? && !pc.PopFailed?
  }

  // The popper has advanced the head and not flipped its slot yet.
  predicate HeadAhead(pc: PopPc) {
    pc.TestFull? || pc.ClearFull? || pc.PopFlip?
  }

  function Bit(b: bool): nat {
    if b then 1 else 0
  }

  predicate Counters(s: State) {
    && s.popped <= |s.pushed| <= s.popped + s.n
    && (Popping(s.cpc) ==> s.popped < |s.pushed|)
    && (Pushing(s.ppc) ==> |s.pushed| < s.popped + s.n)
    && s.heads == s.popped + Bit(HeadAhead(s.cpc))
    && s.tails == |s.pushed| + Bit(s.ppc == PushFlip)
    && s.ppc != PushFailed && s.cpc != PopFailed
  }

  predicate HeadAndTail(s: State) {
    s.n > 0 && s.idx.head == Slot(s.heads, s.n) && s.idx.tail == Slot(s.tails, s.n)
  }

  predicate PushPosition(s: State) {
    && s.n > 0
    && (s.ppc == PushSeek ==> |s.pushed| > 0 && s.ppos == Slot(|s.pushed| - 1, s.n))
    && (s.ppc != PushSeek ==> s.ppos == Slot(|s.pushed|, s.n))
    && (s.ppc.SetFull? || s.ppc.StoreTail? ==> s.pnext == Slot(s.tails + 1, s.n))
  }

  predicate PopPosition(s: State) {
    && s.n > 0
    && (s.cpc == PopSeek ==> s.popped > 0 && s.cpos == Slot(s.popped - 1, s.n))
    && (s.cpc != PopSeek && s.cpc != PopIdle ==> s.cpos == Slot(s.popped, s.n))
  }

  /** The consumer owns the slot of absolute position a exactly when a's push has flipped it. */
  predicate OwnerAt(s: State, a: nat)
    requires Shape(s)
  {
    s.descs[Slot(a, s.n)].sown == if a < |s.pushed| then Other(s.producer) else s.producer
  }

  /** The consumer owns exactly the slots of the window from flipped pops to flipped pushes. */
  ghost predicate Owners(s: State)
    requires Shape(s)
  {
    && (forall i | 0 <= i < s.n :: s.descs[i].cookie == i)
    && forall a: nat {:trigger OwnerAt(s, a)} | s.popped <= a < s.popped + s.n :: OwnerAt(s, a)
  }

  /** The full byte is set whenever it is needed, and one that is set will still be cleared
      before the ring can be empty: a pop that has yet to test it is outstanding. */
  predicate FullByte(s: State) {
    && (s.tails == s.heads + s.n ==> s.idx.full)
    && (s.ppc == StoreTail && s.tails + 1 == s.heads + s.n ==> s.idx.full)
    && (s.idx.full ==> s.popped + Bit(s.cpc == PopFlip) < s.tails + Bit(s.ppc == StoreTail))
  }

  function Zeroings(s: State): nat {
    s.popped + Bit(Popping(s.cpc) && s.cpc != Dispatch && s.cpc != Zero)
  }

  /** The buffer of position a holds the event pushed there, or the one the pusher has just
      filled in, or is zeroed. */
  predicate ContentsAt(s: State, a: nat)
    requires Shape(s)
  {
    s.bufs[Slot(a, s.n)] ==
      if a < |s.pushed| then s.pushed[a] else if a == |s.pushed| && Filled(s.ppc) then s.pev else ZEROED
  }

  ghost predicate Contents(s: State)
    requires Shape(s)
  {
    && |s.dispatched| == s.popped + Bit(Popping(s.cpc) && s.cpc != Dispatch)
    && s.dispatched <= s.pushed
    && forall a: nat {:trigger ContentsAt(s, a)} | Zeroings(s) <= a < Zeroings(s) + s.n :: ContentsAt(s, a)
  }

  ghost predicate Inv(s: State) {
    && Shape(s) && Counters(s) && HeadAndTail(s) && PushPosition(s) && PopPosition(s)
    && Owners(s) && FullByte(s) && Contents(s)
  }

  lemma InitInv(n: nat, producer: Locale)
    requires n > 0
    ensures Inv(Init(n, producer))
  {
  }

  // -------- the pusher keeps it --------

  /** The owner bit at the pusher's position says whether the ring has room. */
  lemma PusherSeesRoom(s: State)
    requires Shape(s) && Counters(s) && PushPosition(s) && Owners(s)
    ensures s.ppc != PushSeek ==> (s.descs[s.ppos].sown == s.producer <==> |s.pushed| < s.popped + s.n)
  {
    if |s.pushed| == s.popped + s.n {
      SlotAdd(s.popped, s.n, s.n);
      assert OwnerAt(s, s.popped);
    } else {
      assert OwnerAt(s, |s.pushed|);
    }
  }

  /** Line 92's head test finds the slot that would make the ring full. */
  lemma HeadTest(s: State)
    requires Shape(s) && Counters(s) && HeadAndTail(s) && Pushing(s.ppc) && s.ppc != PushFlip
    ensures s.idx.head == ModuloInc(s.idx.tail, s.n) <==> s.tails + 1 == s.heads + s.n
  {
    SlotAdd(s.heads, s.tails + 1 - s.heads, s.n);
  }

  lemma PushKeepsCounters(s: State, e: Event)
    requires Shape(s) && Counters(s) && HeadAndTail(s) && PushPosition(s)
    requires s.ppc != PushSeek ==> (s.descs[s.ppos].sown == s.producer <==> |s.pushed| < s.popped + s.n)
    ensures Counters(PushStep(s, e))
  {
  }

  lemma PushKeepsPosition(s: State, e: Event)
    requires Shape(s) && Counters(s) && HeadAndTail(s) && PushPosition(s)
    ensures PushPosition(PushStep(s, e))
  {
    if s.ppc == PushSeek { SlotNext(|s.pushed| - 1, s.n); }
    if s.ppc == TestHead { SlotNext(s.tails, s.n); }
  }

  lemma PushKeepsIndex(s: State, e: Event)
    requires Shape(s) && HeadAndTail(s) && PushPosition(s)
    ensures HeadAndTail(PushStep(s, e))
  {
  }

  /** The comment at line 94 made precise: the byte may be set after the popper has already
      made room, but then a pop that will clear it is still to come. */
  lemma PushKeepsFull(s: State, e: Event)
    requires Shape(s) && Counters(s) && FullByte(s)
    requires s.ppc == TestHead ==> (s.idx.head == ModuloInc(s.idx.tail, s.n) <==> s.tails + 1 == s.heads + s.n)
    ensures FullByte(PushStep(s, e))
  {
  }

  lemma PushKeepsOwners(s: State, e: Event)
    requires Shape(s) && Counters(s) && PushPosition(s) && Owners(s)
    ensures Owners(PushStep(s, e))
  {
    var t, p := PushStep(s, e), |s.pushed|;
    forall a: nat | t.popped <= a < t.popped + t.n
      ensures OwnerAt(t, a)
    {
      assert OwnerAt(s, a);
      if s.ppc == PushFlip {
        if a <= p { SlotInjective(a, p, s.n); } else { SlotInjective(p, a, s.n); }
      }
    }
  }

  lemma FillKeepsContents(s: State, e: Event)
    requires Shape(s) && Counters(s) && PushPosition(s) && Owners(s) && Contents(s) && s.ppc == Fill
    ensures Contents(PushStep(s, e))
  {
    var t, p := PushStep(s, e), |s.pushed|;
    forall a: nat | Zeroings(t) <= a < Zeroings(t) + t.n
      ensures ContentsAt(t, a)
    {
      assert ContentsAt(s, a);
      if a <= p { SlotInjective(a, p, s.n); } else { SlotInjective(p, a, s.n); }
    }
  }

  lemma PushKeepsContents(s: State, e: Event)
    requires Shape(s) && Counters(s) && Contents(s) && s.ppc != Fill
    requires PushStep(s, e).ppc != PushFailed
    ensures Contents(PushStep(s, e))
  {
    var t := PushStep(s, e);
    forall a: nat | Zeroings(t) <= a < Zeroings(t) + t.n
      ensures ContentsAt(t, a)
    {
      assert ContentsAt(s, a);
    }
  }

  lemma PushKeepsIndexes(s: State, e: Event)
    requires Shape(s) && Counters(s) && HeadAndTail(s) && PushPosition(s) && Owners(s) && FullByte(s)
    ensures var t := PushStep(s, e); Counters(t) && HeadAndTail(t) && PushPosition(t) && FullByte(t)
  {
    PusherSeesRoom(s);
    if s.ppc == TestHead { HeadTest(s); }
    PushKeepsCounters(s, e);
    PushKeepsPosition(s, e);
    PushKeepsIndex(s, e);
    PushKeepsFull(s, e);
  }

  lemma PushKeeps(s: State, e: Event)
    requires Inv(s)
    ensures Inv(PushStep(s, e))
  {
    PushKeepsIndexes(s, e);
    PushKeepsOwners(s, e);
    if s.ppc == Fill { FillKeepsContents(s, e); } else { PushKeepsContents(s, e); }
  }

  // -------- the popper keeps it --------

  /** The owner bit at the popper's position says whether anything was pushed. */
  lemma PopperSeesWork(s: State)
    requires Shape(s) && Counters(s) && PopPosition(s) && Owners(s)
    ensures s.cpc != PopSeek && s.cpc != PopIdle ==>
              (s.descs[s.cpos].sown == s.producer <==> |s.pushed| == s.popped)
  {
    assert OwnerAt(s, s.popped);
  }

  lemma PopKeepsCounters(s: State)
    requires Shape(s) && Counters(s) && HeadAndTail(s) && PopPosition(s)
    requires s.cpc != PopSeek && s.cpc != PopIdle ==> (s.descs[s.cpos].sown == s.producer <==> |s.pushed| == s.popped)
    ensures Counters(PopStep(s))
  {
  }

  lemma PopKeepsPosition(s: State)
    requires Shape(s) && Counters(s) && HeadAndTail(s) && PopPosition(s)
    ensures PopPosition(PopStep(s))
  {
    if s.cpc == PopSeek { SlotNext(s.popped - 1, s.n); }
  }

  lemma PopKeepsIndex(s: State)
    requires Shape(s) && HeadAndTail(s)
    ensures HeadAndTail(PopStep(s))
  {
    SlotNext(s.heads, s.n);
  }

  lemma PopLeavesPusher(s: State)
    requires Shape(s) && PushPosition(s)
    ensures PushPosition(PopStep(s))
  {
  }

  /** A pop clears the byte only once its own head store has made it unneeded. */
  lemma PopKeepsFull(s: State)
    requires Shape(s) && Counters(s) && FullByte(s)
    ensures FullByte(PopStep(s))
  {
  }

  lemma PopKeepsOwners(s: State)
    requires Shape(s) && Counters(s) && PopPosition(s) && Owners(s)
    ensures Owners(PopStep(s))
  {
    var t, p := PopStep(s), s.popped;
    SlotAdd(p, s.n, s.n);
    forall a: nat | t.popped <= a < t.popped + t.n
      ensures OwnerAt(t, a)
    {
      if a < p + s.n {
        assert OwnerAt(s, a);
        SlotInjective(p, a, s.n);
      }
    }
  }

  lemma ZeroKeepsContents(s: State)
    requires Shape(s) && Counters(s) && PopPosition(s) && Owners(s) && Contents(s) && s.cpc == Zero
    ensures Contents(PopStep(s))
  {
    var t, p := PopStep(s), s.popped;
    forall a: nat | Zeroings(t) <= a < Zeroings(t) + t.n
      ensures ContentsAt(t, a)
    {
      if a < p + s.n {
        assert ContentsAt(s, a);
        SlotInjective(p, a, s.n);
      } else {
        SlotAdd(p, s.n, s.n);
      }
    }
  }

  /** The popper dispatches the oldest event it has not dispatched yet, unaltered. */
  lemma DispatchesOldest(s: State)
    requires Shape(s) && Counters(s) && PopPosition(s) && Owners(s) && Contents(s) && s.cpc == Dispatch
    ensures PopStep(s).dispatched == s.pushed[..s.popped + 1]
  {
    assert ContentsAt(s, s.popped);
    assert s.dispatched + [s.pushed[s.popped]] == s.pushed[..s.popped + 1];
  }

  lemma LeavesContents(s: State)
    requires Shape(s) && Counters(s) && Contents(s) && s.cpc != Zero
    requires s.cpc == Dispatch ==> PopStep(s).dispatched == s.pushed[..s.popped + 1]
    requires PopStep(s).cpc != PopFailed
    ensures Contents(PopStep(s))
  {
    var t := PopStep(s);
    forall a: nat | Zeroings(t) <= a < Zeroings(t) + t.n
      ensures ContentsAt(t, a)
    {
      assert ContentsAt(s, a);
    }
  }

  lemma PopKeepsContents(s: State)
    requires Shape(s) && Counters(s) && PopPosition(s) && Owners(s) && Contents(s)
    requires PopStep(s).cpc != PopFailed
    ensures Contents(PopStep(s))
  {
    if s.cpc == Zero {
      ZeroKeepsContents(s);
    } else {
      if s.cpc == Dispatch { DispatchesOldest(s); }
      LeavesContents(s);
    }
  }

  lemma PopKeepsIndexes(s: State)
    requires Shape(s) && Counters(s) && HeadAndTail(s) && PopPosition(s) && Owners(s) && FullByte(s)
    ensures var t := PopStep(s); Counters(t) && HeadAndTail(t) && PopPosition(t) && FullByte(t)
  {
    PopperSeesWork(s);
    PopKeepsCounters(s);
    PopKeepsPosition(s);
    PopKeepsIndex(s);
    PopKeepsFull(s);
  }

  lemma PopKeeps(s: State)
    requires Inv(s)
    ensures Inv(PopStep(s))
  {
    PopKeepsIndexes(s);
    PopLeavesPusher(s);
    PopKeepsOwners(s);
    PopKeepsContents(s);
  }
}
