/** The whole calls on the valid and in-use indexes and the dual index machine agree: a push
    with a dual iterator, and a reap without the flip, whose stores nobody interrupts have
    the effect of the call. */
module DualRefinement {
  import opened Ring
  import opened IoqQueue
  import opened Runs
  import opened Refinement
  import R = RingProtocol
  import D = DualIndex

  // North's iterators: one pushes both indexes, the other reaps the valid one.
  function DualCursor(pos: nat): Cursor {
    Cursor(Valid, pos, false, true, true)
  }

  function ReapCursor(pos: nat): Cursor {
    Cursor(Valid, pos, false, false, false)
  }

  function MemoryIn(s: D.State): Memory {
    MemoryOf(s.ring, s.valid)
  }

  // A push that the valid index admits, up to its head test.
  lemma SoloAdmit(s0: D.State, s: D.State, e: R.Event) returns (t: D.State)
    requires Reaches(D.Next, s0, s) && R.Shape(s.ring) && s.npc == D.NIdle && !IdxFull(s.valid)
    requires s.ring.producer == North && s.ring.ppos == s.valid.tail == s.ring.idx.tail
    requires s.ring.descs[s.ring.ppos].sown == North
    ensures Reaches(D.Next, s0, t)
    ensures t == s.(npc := D.NValidTest,
                    ring := s.ring.(ppc := R.TestHead, pev := e, bufs := s.ring.bufs[s.ring.descs[s.ring.ppos].cookie := e]))
  {
    t := After(D.Next, s0, s, D.NorthPush(e));
    t := After(D.Next, s0, t, D.NorthPush(e));
    t := After(D.Next, s0, t, D.NorthPush(e));
    t := After(D.Next, s0, t, D.NorthPush(e));
  }

  // idx_tail_push of the valid index.
  lemma SoloValid(s0: D.State, s: D.State, m: D.Move) returns (t: D.State)
    requires Reaches(D.Next, s0, s) && R.Shape(s.ring) && s.npc == D.NValidTest && m != D.SouthPop
    ensures Reaches(D.Next, s0, t)
    ensures t == s.(npc := D.NInuse, vnext := ModuloInc(s.valid.tail, s.ring.n),
                    valid := TailPushed(s.valid, s.ring.n), vtails := s.vtails + 1)
  {
    t := After(D.Next, s0, s, m);
    if t.npc == D.NValidSetFull {
      t := After(D.Next, s0, t, m);
    }
    t := After(D.Next, s0, t, m);
  }

  // idx_tail_push of the in-use index.
  lemma SoloInuse(s0: D.State, s: D.State, m: D.Move) returns (t: D.State)
    requires Reaches(D.Next, s0, s) && R.Shape(s.ring) && s.npc == D.NInuse && s.ring.ppc == R.TestHead && m != D.SouthPop
    ensures Reaches(D.Next, s0, t) && R.Shape(t.ring)
    ensures t == s.(npc := D.NCompare,
                    ring := s.ring.(ppc := R.PushFlip, pnext := ModuloInc(s.ring.idx.tail, s.ring.n),
                                    idx := TailPushed(s.ring.idx, s.ring.n), tails := s.ring.tails + 1))
  {
    t := After(D.Next, s0, s, m);
    if t.ring.ppc == R.SetFull {
      t := After(D.Next, s0, t, m);
    }
    t := After(D.Next, s0, t, m);
  }

  // The comparison, the flip and the seek.
  lemma SoloFlip(s0: D.State, s: D.State, m: D.Move) returns (t: D.State)
    requires Reaches(D.Next, s0, s) && R.Shape(s.ring) && s.npc == D.NCompare && s.ring.ppc == R.PushFlip && m != D.SouthPop
    requires s.ring.idx.tail == s.valid.tail
    ensures Reaches(D.Next, s0, t)
    ensures var r := s.ring;
            t == s.(npc := D.NIdle,
                    ring := r.(ppc := R.PushIdle, ppos := ModuloInc(r.ppos, r.n), pushed := r.pushed + [r.pev],
                               descs := r.descs[r.ppos := r.descs[r.ppos].(sown := Other(r.producer))]))
  {
    t := After(D.Next, s0, s, m);
    t := After(D.Next, s0, t, m);
    t := After(D.Next, s0, t, m);
  }

  // What the invariant says of an idle North.
  lemma Admitted(s: D.State)
    requires D.Inv(s) && s.npc == D.NIdle && !IdxFull(s.valid)
    ensures s.ring.producer == North && s.ring.ppos == s.valid.tail == s.ring.idx.tail
    ensures s.ring.descs[s.ring.ppos].sown == North
  {
    D.StartOwnsSlot(s, R.ZEROED);
    D.AtRest(s);
  }

  // The whole push.
  lemma SoloDualPush(s: D.State, e: R.Event) returns (t: D.State)
    requires R.Shape(s.ring) && s.npc == D.NIdle && !IdxFull(s.valid)
    requires s.ring.producer == North && s.ring.ppos == s.valid.tail == s.ring.idx.tail
    requires s.ring.descs[s.ring.ppos].sown == North
    ensures Reaches(D.Next, s, t) && t.npc == D.NIdle
    ensures t.valid == TailPushed(s.valid, s.ring.n) && t.ring.idx == TailPushed(s.ring.idx, s.ring.n)
    ensures t.ring.ppos == ModuloInc(s.ring.ppos, s.ring.n) && t.ring.pushed == s.ring.pushed + [e]
    ensures t.ring.descs == s.ring.descs[s.ring.ppos := s.ring.descs[s.ring.ppos].(sown := South)]
  {
    ReachesSelf<D.State, D.Move>(D.Next, s);
    var m := D.NorthPush(e);
    t := SoloAdmit(s, s, e);
    t := SoloValid(s, t, m);
    t := SoloInuse(s, t, m);
    t := SoloFlip(s, t, m);
  }

  /** North between its operations, with a valid index that is not full, can run its push to
      the end alone, and that is ioq_iter_push with a dual iterator: both indexes advance,
      and the comparison of the tails succeeds. */
  lemma DualPushStepsArePush(s: D.State, e: R.Event) returns (t: D.State)
    requires D.Inv(s) && s.npc == D.NIdle && !IdxFull(s.valid)
    ensures Reaches(D.Next, s, t) && t.npc == D.NIdle && t.ring.pushed == s.ring.pushed + [e]
    ensures Outcome(0, MemoryIn(t), DualCursor(t.ring.ppos)) == Pushed(MemoryIn(s), DualCursor(s.ring.ppos), North)
  {
    Admitted(s);
    t := SoloDualPush(s, e);
    assert MemoryIn(t).ring == Pushed(MemoryIn(s), DualCursor(s.ring.ppos), North).mem.ring;
  }

  // A reap of a descriptor that South has popped, up to its head store.
  lemma ReapAdmit(s: D.State) returns (t: D.State)
    requires R.Shape(s.ring) && s.npc == D.NIdle && RingCount(s.valid, s.ring.n) != 0
    requires s.valid.head < s.ring.n && s.ring.descs[s.valid.head].sown == North
    ensures Reaches(D.Next, s, t)
    ensures t == s.(npc := D.RStoreHead, rpos := s.valid.head)
  {
    ReachesSelf<D.State, D.Move>(D.Next, s);
    t := After(D.Next, s, s, D.NorthReap);
    t := After(D.Next, s, t, D.NorthReap);
    t := After(D.Next, s, t, D.NorthReap);
  }

  // The head advance.
  lemma SoloHeadPop(s0: D.State, s: D.State) returns (t: D.State)
    requires Reaches(D.Next, s0, s) && R.Shape(s.ring) && s.npc == D.RStoreHead
    ensures Reaches(D.Next, s0, t)
    ensures t == s.(npc := D.NIdle, valid := HeadPopped(s.valid, s.ring.n), vheads := s.vheads + 1)
  {
    t := After(D.Next, s0, s, D.NorthReap);
    t := After(D.Next, s0, t, D.NorthReap);
    if t.npc == D.RClearFull {
      t := After(D.Next, s0, t, D.NorthReap);
    }
  }

  // A reap of a descriptor that South has not popped yet.
  lemma SoloRefusedReap(s: D.State) returns (t: D.State)
    requires R.Shape(s.ring) && s.npc == D.NIdle && RingCount(s.valid, s.ring.n) != 0
    requires s.valid.head < s.ring.n && s.ring.descs[s.valid.head].sown == South
    ensures Reaches(D.Next, s, t)
    ensures t == s.(rpos := s.valid.head)
  {
    ReachesSelf<D.State, D.Move>(D.Next, s);
    t := After(D.Next, s, s, D.NorthReap);
    t := After(D.Next, s, t, D.NorthReap);
    t := After(D.Next, s, t, D.NorthReap);
  }

  /** North between its operations, with a valid index that is not empty, can run its reap to
      the end alone, and that is ioq_iter_pop without the flip: it advances the valid head
      and nothing else, or is refused because South still has the descriptor. */
  lemma ReapStepsArePop(s: D.State) returns (t: D.State)
    requires D.Inv(s) && s.npc == D.NIdle && RingCount(s.valid, s.ring.n) != 0
    ensures Reaches(D.Next, s, t) && t.npc == D.NIdle && s.valid.head < s.ring.n
    ensures var o := Popped(MemoryIn(s), ReapCursor(s.valid.head), North);
            && MemoryIn(t) == o.mem
            && (o.ret == 0 <==> s.ring.descs[s.valid.head].sown == North)
            && t.vheads == s.vheads + if o.ret == 0 then 1 else 0
  {
    if s.ring.descs[s.valid.head].sown == North {
      t := ReapAdmit(s);
      t := SoloHeadPop(s, t);
    } else {
      t := SoloRefusedReap(s);
    }
  }
}
