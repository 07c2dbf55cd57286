/** The whole calls of the ioq classes and the ring protocol agree: an operation whose
    stores nobody interrupts has the effect of the call. */
module Refinement {
  import opened Ring
  import opened IoqQueue
  import opened Runs
  import EventQueue
  import R = RingProtocol
  import T = RingTheorems

  /** The shared memory of a protocol state, next to the given valid index. */
  function MemoryOf(s: R.State, valid: Idx): Memory {
    Memory(valid, s.idx, seq(|s.descs|, i requires 0 <= i < |s.descs| =>
      Desc(s.descs[i].cookie, EventQueue.EVENT_SIZE, true, s.descs[i].sown)))
  }

  function CursorAt(pos: nat): Cursor {
    Cursor(Inuse, pos, false, false, true)
  }

  /** A settled pusher whose descriptor is its own can run its push to the end alone, and
      that is ioq_iter_push. */
  lemma PushStepsArePush(s: R.State, e: R.Event, valid: Idx) returns (t: R.State)
    requires R.Inv(s) && s.ppc == R.PushIdle && s.descs[s.ppos].sown == s.producer
    ensures R.Inv(t) && Reaches(T.Next, s, t) && t.pushed == s.pushed + [e]
    ensures Outcome(0, MemoryOf(t, valid), CursorAt(t.ppos)) == Pushed(MemoryOf(s, valid), CursorAt(s.ppos), s.producer)
  {
    ReachesSelf<R.State, T.Move>(T.Next, s);
    t := T.SoloPush(s, s, e);
    T.ReachesKeeps(s, t);
    assert MemoryOf(t, valid).ring == Pushed(MemoryOf(s, valid), CursorAt(s.ppos), s.producer).mem.ring;
  }

  /** A drain loop that finds work can run one pass to the end alone, and that is
      ioq_iter_pop. */
  lemma PopStepsArePop(s: R.State, valid: Idx) returns (t: R.State)
    requires R.Inv(s) && s.cpc == R.LoopTest && s.descs[s.cpos].sown == Other(s.producer)
    ensures R.Inv(t) && Reaches(T.Next, s, t) && t.popped == s.popped + 1
    ensures Outcome(0, MemoryOf(t, valid), CursorAt(t.cpos)) == Popped(MemoryOf(s, valid), CursorAt(s.cpos), Other(s.producer))
  {
    ReachesSelf<R.State, T.Move>(T.Next, s);
    t := T.SoloPop(s, s);
    T.ReachesKeeps(s, t);
    assert MemoryOf(t, valid).ring == Popped(MemoryOf(s, valid), CursorAt(s.cpos), Other(s.producer)).mem.ring;
  }

  /** Every settled state of a ring that South pushes meets what eventq_wakeup relies on: its
      whole call can be made on any reachable ring, and drains it. */
  lemma SettledHolds(s: R.State, valid: Idx)
    requires T.Reachable(s) && T.Settled(s) && s.producer == South
    ensures EventQueue.Holds(MemoryOf(s, valid), s.n, s.popped, |s.pushed|)
  {
    T.ReachableInv(s);
    T.SettledIndex(s);
    var m := MemoryOf(s, valid);
    forall a: nat | s.popped <= a < s.popped + s.n
      ensures EventQueue.OwnerAt(m, a, |s.pushed|)
    {
      assert R.OwnerAt(s, a);
    }
  }

  /** The memory eventq_init leaves is that of the state the ring protocol starts from, next
      to a full valid index. */
  lemma FilledIsStart(n: nat)
    requires 0 < n
    ensures MemoryOf(R.Init(n, South), Idx(0, 0, true)) == EventQueue.FilledMem(n, n)
  {
    SlotAdd(0, n, n);
    assert MemoryOf(R.Init(n, South), Idx(0, 0, true)).ring == EventQueue.Filled(n, n);
  }
}
