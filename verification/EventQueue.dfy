/** The event queue client: the ring is allocated, filled by eventq_init and drained by
    eventq_wakeup, as whole calls of North while South stands still. */
module EventQueue {
  import opened Ring
  import opened IoqQueue
  import opened ShmSignal
  import SignalProtocol
  import R = RingProtocol

  datatype Status = Success | NoMemory | NoMoreEntries

  // sizeof(struct vbus_pci_event): a 32-bit id, padding, and the larger union member
  const EVENT_SIZE: nat := 144

  /** The ring after k of its descriptors were filled by eventq_init. */
  function Filled(n: nat, k: nat): seq<Desc>
    requires k <= n
  {
    seq(n, (i: nat) => if i < k then Desc(i, EVENT_SIZE, true, South) else Desc(0, 0, false, North))
  }

  /** The ring eventq_init works on after k pushes. */
  function FilledMem(n: nat, k: nat): Memory
    requires 0 < n && k <= n
  {
    Memory(Idx(0, Slot(k, n), k == n), Idx(0, 0, false), Filled(n, k))
  }

  function FillCursor(n: nat, k: nat): Cursor
    requires 0 < n
  {
    Cursor(Valid, Slot(k, n), false, false, true)
  }

  // The descriptor at the cursor, filled in for buffer k.
  function Prepared(n: nat, k: nat): Memory
    requires 0 < n && k <= n
  {
    var m, p := FilledMem(n, k), Slot(k, n);
    m.(ring := m.ring[p := Desc(k, EVENT_SIZE, true, m.ring[p].sown)])
  }

  /** The next push succeeds while the ring has descriptors left, and not after that. */
  lemma FillStep(n: nat, k: nat)
    requires 0 < n && k <= n
    ensures var o := Pushed(Prepared(n, k), FillCursor(n, k), North);
            o == if k < n then Outcome(0, FilledMem(n, k + 1), FillCursor(n, k + 1))
                 else Outcome(-1, Prepared(n, k), FillCursor(n, k))
  {
    SlotAdd(0, k, n);
    if k < n {
      var o := Pushed(Prepared(n, k), FillCursor(n, k), North);
      assert o.mem.ring == Filled(n, k + 1);
    }
  }

  // The descriptor of position a is with North exactly when a holds an event.
  predicate OwnerAt(m: Memory, a: nat, t: nat)
    requires |m.ring| > 0
  {
    m.ring[Slot(a, |m.ring|)].sown == if a < t then North else South
  }

  /** The in-use index holds the events of positions h to t, and every cookie still names
      the buffer assigned to it. */
  ghost predicate Holds(m: Memory, buffers: nat, h: nat, t: nat) {
    && |m.ring| == buffers && Exact(m.inuse, h, t, |m.ring|)
    && (forall i | 0 <= i < |m.ring| :: m.ring[i].cookie == i)
    && forall a: nat {:trigger OwnerAt(m, a, t)} | h <= a < h + |m.ring| :: OwnerAt(m, a, t)
  }

  /** eventq_init establishes the ownership invariant of an empty in-use index, in the very
      state the ring protocol starts from. */
  lemma FilledHolds(n: nat)
    requires 0 < n
    ensures var m := FilledMem(n, n);
            Holds(m, n, 0, 0) && m.valid.tail == 0 && IdxFull(m.valid) && RingCount(m.valid, n) == n
    ensures R.Init(n, South).idx == FilledMem(n, n).inuse
    ensures R.Init(n, South).descs == seq(n, (i: nat) requires i < n => R.Desc(Filled(n, n)[i].cookie, Filled(n, n)[i].sown))
  {
    SlotAdd(0, n, n);
  }

  // The events of positions h to t.
  function Events(bufs: seq<R.Event>, h: nat, t: nat): seq<R.Event>
    requires |bufs| > 0 && h <= t
  {
    seq(t - h, (k: nat) => bufs[Slot(h + k, |bufs|)])
  }

  function PopCursor(n: nat, h: nat): Cursor
    requires 0 < n
  {
    Cursor(Inuse, Slot(h, n), false, false, true)
  }

  /** One pop of a non-empty index hands the oldest descriptor back to South. */
  lemma PopHolds(m: Memory, h: nat, t: nat)
    requires Holds(m, |m.ring|, h, t) && h < t
    ensures var o := Popped(m, PopCursor(|m.ring|, h), North);
            && o.ret == 0 && o.cur == PopCursor(|m.ring|, h + 1) && o.mem.valid == m.valid
            && Holds(o.mem, |m.ring|, h + 1, t)
  {
    var n := |m.ring|;
    assert OwnerAt(m, h, t);
    PopAdvances(m, PopCursor(n, h), North, h, t);
    var m' := Popped(m, PopCursor(n, h), North).mem;
    SlotAdd(h, n, n);
    forall a: nat | h + 1 <= a < h + 1 + n
      ensures OwnerAt(m', a, t)
    {
      if a < h + n {
        assert OwnerAt(m, a, t);
        SlotInjective(h, a, n);
      }
    }
  }

  /** The drain loop's test of the owner bit sees whether the index is empty. */
  lemma OwnerTestIsEmptyTest(m: Memory, h: nat, t: nat)
    requires Holds(m, |m.ring|, h, t)
    ensures m.ring[Slot(h, |m.ring|)].sown == South <==> h == t
  {
    assert OwnerAt(m, h, t);
  }

  predicate BufferAt(bufs: seq<R.Event>, was: seq<R.Event>, b: nat, a: nat)
    requires |bufs| == |was| > 0
  {
    bufs[Slot(b, |was|)] == if b < a then R.ZEROED else was[Slot(b, |was|)]
  }

  /** Of the buffers of the lap from h, those before position a are zeroed, the others as
      they were. */
  ghost predicate Drained(bufs: seq<R.Event>, was: seq<R.Event>, h: nat, a: nat) {
    && |bufs| == |was| > 0
    && forall b: nat {:trigger BufferAt(bufs, was, b, a)} | h <= b < h + |was| :: BufferAt(bufs, was, b, a)
  }

  lemma DrainedStep(bufs: seq<R.Event>, was: seq<R.Event>, h: nat, a: nat)
    requires Drained(bufs, was, h, a) && h <= a < h + |was|
    ensures bufs[Slot(a, |was|)] == was[Slot(a, |was|)]
    ensures Drained(bufs[Slot(a, |was|) := R.ZEROED], was, h, a + 1)
    ensures Events(was, h, a + 1) == Events(was, h, a) + [was[Slot(a, |was|)]]
  {
    var n := |was|;
    var after, next := bufs[Slot(a, n) := R.ZEROED], a + 1;
    assert BufferAt(bufs, was, a, a);
    forall b: nat | h <= b < h + n
      ensures BufferAt(after, was, b, next)
    {
      assert BufferAt(bufs, was, b, a);
      if b <= a { SlotInjective(b, a, n); } else { SlotInjective(a, b, n); }
    }
  }

  lemma DrainedIsZero(bufs: seq<R.Event>, was: seq<R.Event>, h: nat, t: nat)
    requires Drained(bufs, was, h, t) && t <= h + |was|
    ensures forall b: nat | h <= b < t :: bufs[Slot(b, |bufs|)] == R.Event(0, 0)
  {
    forall b: nat | h <= b < t
      ensures bufs[Slot(b, |bufs|)] == R.Event(0, 0)
    {
      assert BufferAt(bufs, was, b, t);
    }
  }

  class EventQueue {
    var ioq: Ioq
    // the event buffers, by the number a cookie names them with
    var bufs: array<R.Event>
    // the events handed to the event_* handlers
    var dispatched: seq<R.Event>

    /** The queue eventq_ioq_init sets up. */
    constructor (ringsize: nat)
      requires ringsize > 0
      ensures fresh(ioq) && fresh(ioq.ring) && fresh(ioq.signal) && fresh(bufs)
      ensures ioq.Valid() && ioq.locale == North && ioq.count == ringsize
      ensures ioq.Mem() == FilledMem(ringsize, 0)
      ensures ioq.signal.local == ioq.signal.remote == SignalProtocol.Irq(false, false, false)
      ensures dispatched == []
    {
      var signal := new Signal();
      ioq := new Ioq(North, ringsize, signal);
      bufs := new R.Event[0];
      dispatched := [];
    }

    // The fill loop of eventq_init.
    method Fill(iter: Iterator, qlen: nat) returns (ok: bool)
      requires iter.ioq == ioq && iter.Seeked() && ioq.locale == North
      requires ioq.Mem() == FilledMem(ioq.count, 0) && iter.Cur() == FillCursor(ioq.count, 0)
      modifies ioq, ioq.ring, ioq.signal, iter`pos
      ensures ioq.Valid() && unchanged(ioq.signal)
      ensures ok <==> qlen <= ioq.count
      ensures ioq.Mem() == if ok then FilledMem(ioq.count, qlen) else Prepared(ioq.count, ioq.count)
    {
      var n := ioq.count;
      for i := 0 to qlen
        invariant iter.Seeked() && i <= n && unchanged(ioq.signal)
        invariant ioq.Mem() == FilledMem(n, i) && iter.Cur() == FillCursor(n, i)
      {
        FillStep(n, i);
        ioq.ring[iter.pos] := Desc(i, EVENT_SIZE, true, ioq.ring[iter.pos].sown);
        assert ioq.Mem() == Prepared(n, i);
        var ret := iter.Push();
        if ret < 0 {
          return false;
        }
      }
      ok := true;
    }

    /** eventq_init on a brand-new queue of n descriptors: it succeeds exactly for
        qlen <= n, and then leaves the first qlen descriptors valid and owned by South. */
    method Init(qlen: nat, haveMemory: bool) returns (status: Status)
      requires ioq.Valid() && ioq.locale == North
      requires ioq.Mem() == FilledMem(ioq.count, 0)
      requires ioq.signal.local == SignalProtocol.Irq(false, false, false)
      modifies this`bufs, ioq, ioq.ring, ioq.signal
      ensures ioq == old(ioq) && ioq.Valid()
      ensures status == if !haveMemory then NoMemory else if qlen <= ioq.count then Success else NoMoreEntries
      ensures status == NoMemory ==> ioq.Mem() == old(ioq.Mem())
      ensures status == NoMoreEntries ==> ioq.Mem() == Prepared(ioq.count, ioq.count)
      ensures status != Success ==> unchanged(ioq.signal)
      ensures status == Success ==>
                && ioq.Mem() == FilledMem(ioq.count, qlen)
                && fresh(bufs) && bufs[..] == seq(qlen, i => R.ZEROED)
                && ioq.signal.local == SignalProtocol.Irq(true, false, false)
      ensures status == Success ==>
                && (forall i | 0 <= i < qlen :: ioq.ring[i] == Desc(i, 144, true, South))
                && (forall i | qlen <= i < ioq.count :: !ioq.ring[i].valid && ioq.ring[i].sown == North)
                && RingCount(ioq.valid, ioq.count) == qlen && RingCount(ioq.inuse, ioq.count) == 0
    {
      if !haveMemory {
        return NoMemory;
      }
      bufs := new R.Event[qlen](i => R.ZEROED);
      var iter := new Iterator(ioq, IoqQueue.Valid, 0);
      var ret := iter.Seek(SeekTail, 0);
      var ok := Fill(iter, qlen);
      if !ok {
        return NoMoreEntries;
      }
      SlotAdd(0, qlen, ioq.count);
      ioq.signal.Enable();
      status := Success;
      assert ioq.ring[..] == Filled(ioq.count, qlen);
    }

    /** The drain loop before position a, of the events at positions h to t: those before a are
        dispatched after what was dispatched before, and their buffers are zeroed. */
    ghost predicate InLoop(iter: Iterator, was: seq<R.Event>, before: seq<R.Event>, h: nat, a: nat, t: nat)
      reads this, ioq, ioq.ring, bufs, iter, iter.ioq
    {
      && iter.ioq == ioq && iter.Seeked() && ioq.locale == North && bufs.Length == |was| == ioq.count
      && h <= a <= t <= h + ioq.count
      && Holds(ioq.Mem(), ioq.count, a, t) && iter.Cur() == PopCursor(ioq.count, a)
      && Drained(bufs[..], was, h, a)
      && dispatched == before + Events(was, h, a)
    }

    // One pass of the drain loop over position a.
    method Pass(iter: Iterator, ghost was: seq<R.Event>, ghost before: seq<R.Event>, ghost h: nat, ghost a: nat, ghost t: nat)
      requires InLoop(iter, was, before, h, a, t) && a < t
      modifies this`dispatched, ioq, ioq.ring, ioq.signal, bufs, iter`pos
      ensures InLoop(iter, was, before, h, a + 1, t)
      ensures ioq.valid == old(ioq.valid) && unchanged(ioq.signal)
    {
      DrainedStep(bufs[..], was, h, a);
      var cookie := ioq.ring[iter.pos].cookie;
      dispatched := dispatched + [bufs[cookie]];
      bufs[cookie] := R.ZEROED;
      PopHolds(ioq.Mem(), a, t);
      var ret := iter.Pop();
    }

    // The drain loop.
    method Drain(iter: Iterator, ghost h: nat, ghost t: nat) returns (ghost passes: nat)
      requires InLoop(iter, bufs[..], dispatched, h, h, t)
      modifies this`dispatched, ioq, ioq.ring, ioq.signal, bufs, iter`pos
      ensures passes == t - h && InLoop(iter, old(bufs[..]), old(dispatched), h, t, t)
      ensures ioq.valid == old(ioq.valid) && unchanged(ioq.signal)
    {
      passes := 0;
      OwnerTestIsEmptyTest(ioq.Mem(), h, t);
      while ioq.ring[iter.pos].sown != South
        invariant InLoop(iter, old(bufs[..]), old(dispatched), h, h + passes, t)
        invariant ioq.ring[iter.pos].sown == South <==> h + passes == t
        invariant ioq.valid == old(ioq.valid) && unchanged(ioq.signal)
        decreases t - h - passes
      {
        Pass(iter, old(bufs[..]), old(dispatched), h, h + passes, t);
        passes := passes + 1;
        OwnerTestIsEmptyTest(ioq.Mem(), h + passes, t);
      }
    }

    /** eventq_wakeup with South quiescent: it makes exactly as many passes as the in-use
        index counts, every pop succeeds, the events are dispatched oldest first and their
        buffers zeroed, and it leaves the index empty with all descriptors with South. */
    method Wakeup(ghost h: nat, ghost t: nat) returns (ghost passes: nat)
      requires ioq.Valid() && ioq.locale == North && Holds(ioq.Mem(), bufs.Length, h, t)
      modifies this`dispatched, ioq, ioq.ring, ioq.signal, bufs
      ensures ioq.Valid() && Holds(ioq.Mem(), bufs.Length, t, t) && ioq.valid == old(ioq.valid)
      ensures passes == t - h == RingCount(old(ioq.inuse), ioq.count)
      ensures RingCount(ioq.inuse, ioq.count) == 0
      ensures forall i | 0 <= i < ioq.count :: ioq.ring[i].sown == South
      ensures dispatched == old(dispatched) + Events(old(bufs[..]), h, t)
      ensures Drained(bufs[..], old(bufs[..]), h, t)
      ensures forall b: nat | h <= b < t :: bufs[Slot(b, bufs.Length)] == R.Event(0, 0)
      ensures ioq.signal.local == old(ioq.signal.local)
      ensures ioq.signal.remote == SignalProtocol.AfterInject(old(ioq.signal.remote))
    {
      CountIsExact(ioq.inuse, h, t, ioq.count);
      var iter := new Iterator(ioq, Inuse, 0);
      var ret := iter.Seek(SeekHead, 0);
      passes := Drain(iter, h, t);
      CountIsExact(ioq.inuse, t, t, ioq.count);
      AllWithSouth(ioq.Mem(), t);
      DrainedIsZero(bufs[..], old(bufs[..]), h, t);
      ioq.signal.Inject();
    }
  }

  lemma AllWithSouth(m: Memory, t: nat)
    requires Holds(m, |m.ring|, t, t)
    ensures forall i | 0 <= i < |m.ring| :: m.ring[i].sown == South
  {
    forall i | 0 <= i < |m.ring|
      ensures m.ring[i].sown == South
    {
      var a := SlotCover(t, i, |m.ring|);
      assert OwnerAt(m, a, t);
    }
  }

  /** eventq_ioq_init, with memory for the ring head and for the signal or not: it sets up a
      queue exactly when it gets both. */
  method IoqInit(ringsize: nat, haveHead: bool, haveSignal: bool) returns (status: Status, queue: EventQueue?)
    requires ringsize > 0
    ensures status == if haveHead && haveSignal then Success else NoMemory
    ensures queue != null <==> status == Success
    ensures queue != null ==>
              && fresh(queue) && fresh(queue.ioq) && fresh(queue.ioq.ring) && fresh(queue.ioq.signal)
              && queue.ioq.Valid() && queue.ioq.locale == North && queue.ioq.count == ringsize
              && queue.ioq.Mem() == FilledMem(ringsize, 0)
              && queue.ioq.signal.local == queue.ioq.signal.remote == SignalProtocol.Irq(false, false, false)
  {
    queue := null;
    if !haveHead {
      return NoMemory, null;
    }
    if !haveSignal {
      return NoMemory, null;
    }
    queue := new EventQueue(ringsize);
    status := Success;
  }
}
