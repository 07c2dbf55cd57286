/** struct ioq, its shared ring and its iterators: the whole calls of one side. */
module IoqQueue {
  import opened Ring
  import opened ShmSignal
  import SignalProtocol

  datatype Desc = Desc(cookie: nat, len: nat, valid: bool, sown: Locale)

  datatype IdxType = Valid | Inuse | Both

  datatype SeekType = SeekTail | SeekNext | SeekHead | SeekSet

  // iter->pos before the first seek: (UINT32) -1
  const UNSEEKED: nat := 0xFFFF_FFFF

  const AUTOUPDATE: bv32 := 1
  const NOFLIPOWNER: bv32 := 2

  /** The contents of the shared ring. */
  datatype Memory = Memory(valid: Idx, inuse: Idx, ring: seq<Desc>) {
    function At(t: IdxType): Idx {
      if t == Inuse then inuse else valid
    }

    function Set(t: IdxType, idx: Idx): Memory {
      if t == Inuse then this.(inuse := idx) else this.(valid := idx)
    }
  }

  /** An iterator's own fields. */
  datatype Cursor = Cursor(idx: IdxType, pos: nat, update: bool, dualidx: bool, flipowner: bool)

  /** The result of a push or pop: its return value, the ring and the iterator after it. */
  datatype Outcome = Outcome(ret: int, mem: Memory, cur: Cursor)

  /** ioq_iter_push. */
  function Pushed(m: Memory, c: Cursor, locale: Locale): Outcome
    requires m.At(c.idx).tail < |m.ring|
  {
    var n := |m.ring|;
    var idx := m.At(c.idx);
    if c.pos != idx.tail || m.ring[c.pos].sown != locale then Outcome(-1, m, c)
    else
      var d := m.ring[c.pos];
      var m1 := m.Set(c.idx, TailPushed(idx, n));
      var m2 := if c.dualidx then m1.(inuse := TailPushed(m1.inuse, n)) else m1;
      if c.dualidx && m2.inuse.tail != m2.valid.tail then Outcome(-1, m2, c)
      else
        Outcome(0, if c.flipowner then m2.(ring := m2.ring[c.pos := d.(sown := Other(locale))]) else m2,
                c.(pos := ModuloInc(c.pos, n)))
  }

  /** ioq_iter_pop. */
  function Popped(m: Memory, c: Cursor, locale: Locale): Outcome
    requires m.At(c.idx).head < |m.ring|
  {
    var n := |m.ring|;
    var idx := m.At(c.idx);
    if c.pos != idx.head || m.ring[c.pos].sown != locale then Outcome(-1, m, c)
    else
      var d := m.ring[c.pos];
      var m1 := m.Set(c.idx, HeadPopped(idx, n));
      Outcome(0, if c.flipowner then m1.(ring := m1.ring[c.pos := d.(sown := Other(locale))]) else m1,
              c.(pos := ModuloInc(c.pos, n)))
  }

  /** The position behind pos.  Positions are UINT32 numbers: outside the ring the increment
      only wraps, so an iterator that was never positioned gets to the first descriptor. */
  function NextPos(pos: nat, count: nat): nat {
    if pos < count then ModuloInc(pos, count) else (pos + 1) % 0x1_0000_0000
  }

  // Advancing by one slot keeps positions apart.
  lemma ModuloIncInjective(a: nat, b: nat, n: nat)
    requires a < n && b < n
    ensures ModuloInc(a, n) == ModuloInc(b, n) <==> a == b
  {
  }

  /** Exactly which pushes succeed: those at the tail, by the owner of the descriptor, and for
      a dual iterator only if both tails were the same.  Every other push changes no
      descriptor, and none of the shared ring unless only the tails were different. */
  lemma PushSucceedsExactly(m: Memory, c: Cursor, locale: Locale)
    requires m.valid.tail < |m.ring| && m.inuse.tail < |m.ring| && (c.dualidx ==> c.idx == Valid)
    ensures var o := Pushed(m, c, locale);
            var admitted := c.pos == m.At(c.idx).tail && m.ring[c.pos].sown == locale;
            && (o.ret == 0 <==> admitted && (c.dualidx ==> m.valid.tail == m.inuse.tail))
            && (o.ret == 0 || o.ret == -1)
            && (!admitted ==> o.mem == m && o.cur == c)
            && (o.ret == -1 ==> o.mem.ring == m.ring)
            && (o.ret == 0 ==> o.mem.ring[c.pos].sown == if c.flipowner then Other(locale) else locale)
  {
    ModuloIncInjective(m.valid.tail, m.inuse.tail, |m.ring|);
  }

  /** Exactly which pops succeed: those at the head, by the owner of the descriptor. */
  lemma PopSucceedsExactly(m: Memory, c: Cursor, locale: Locale)
    requires m.At(c.idx).head < |m.ring|
    ensures var o := Popped(m, c, locale);
            && (o.ret == 0 <==> c.pos == m.At(c.idx).head && m.ring[c.pos].sown == locale)
            && (o.ret == 0 || o.ret == -1)
            && (o.ret == -1 ==> o.mem == m && o.cur == c)
            && (o.ret == 0 ==> o.mem.ring[c.pos].sown == if c.flipowner then Other(locale) else locale)
            && (o.ret == 0 ==> !o.mem.At(c.idx).full)
  {
  }

  /** A push at the tail of an index that holds t - h < n descriptors and counts right. */
  lemma PushAdvances(m: Memory, c: Cursor, locale: Locale, h: nat, t: nat)
    requires !c.dualidx && Exact(m.At(c.idx), h, t, |m.ring|) && t < h + |m.ring|
    requires c.pos == Slot(t, |m.ring|) && m.ring[c.pos].sown == locale
    ensures var o := Pushed(m, c, locale);
            && o.ret == 0 && |o.mem.ring| == |m.ring|
            && Exact(o.mem.At(c.idx), h, t + 1, |m.ring|)
            && RingCount(o.mem.At(c.idx), |m.ring|) == RingCount(m.At(c.idx), |m.ring|) + 1
            && o.cur == c.(pos := Slot(t + 1, |m.ring|))
  {
    var n := |m.ring|;
    TailPushIsExact(m.At(c.idx), h, t, n);
    CountIsExact(m.At(c.idx), h, t, n);
    CountIsExact(TailPushed(m.At(c.idx), n), h, t + 1, n);
    SlotNext(t, n);
  }

  /** A push with a dual iterator when neither index is full and both tails are the same:
      both indexes count one more, and the comparison of the tails at its end succeeds. */
  lemma DualPushAdvances(m: Memory, c: Cursor, locale: Locale, reaped: nat, popped: nat, t: nat)
    requires c.dualidx && c.idx == Valid && Exact(m.valid, reaped, t, |m.ring|) && t < reaped + |m.ring|
    requires Exact(m.inuse, popped, t, |m.ring|) && t < popped + |m.ring|
    requires c.pos == Slot(t, |m.ring|) && m.ring[c.pos].sown == locale
    ensures var o := Pushed(m, c, locale);
            && o.ret == 0 && |o.mem.ring| == |m.ring|
            && Exact(o.mem.valid, reaped, t + 1, |m.ring|) && Exact(o.mem.inuse, popped, t + 1, |m.ring|)
            && o.mem.valid.tail == o.mem.inuse.tail
            && o.cur == c.(pos := Slot(t + 1, |m.ring|))
  {
    TailPushIsExact(m.valid, reaped, t, |m.ring|);
    TailPushIsExact(m.inuse, popped, t, |m.ring|);
    SlotNext(t, |m.ring|);
  }

  /** A pop at the head of an index that is not empty. */
  lemma PopAdvances(m: Memory, c: Cursor, locale: Locale, h: nat, t: nat)
    requires Exact(m.At(c.idx), h, t, |m.ring|) && h < t
    requires c.pos == Slot(h, |m.ring|) && m.ring[c.pos].sown == locale
    ensures var o := Popped(m, c, locale);
            && o.ret == 0 && |o.mem.ring| == |m.ring|
            && Exact(o.mem.At(c.idx), h + 1, t, |m.ring|)
            && RingCount(o.mem.At(c.idx), |m.ring|) == RingCount(m.At(c.idx), |m.ring|) - 1
            && o.cur == c.(pos := Slot(h + 1, |m.ring|))
  {
    var n := |m.ring|;
    HeadPopIsExact(m.At(c.idx), h, t, n);
    CountIsExact(m.At(c.idx), h, t, n);
    CountIsExact(HeadPopped(m.At(c.idx), n), h + 1, t, n);
    SlotNext(h, n);
  }

  /** struct ioq over the shared memory of its ring head. */
  class Ioq {
    const locale: Locale
    const count: nat
    const ring: array<Desc>
    const signal: Signal
    var valid: Idx
    var inuse: Idx

    ghost predicate Valid()
      reads this
    {
      && 0 < count == ring.Length
      && valid.head < count && valid.tail < count && inuse.head < count && inuse.tail < count
    }

    ghost function Mem(): Memory
      reads this, ring
    {
      Memory(valid, inuse, ring[..])
    }

    /** ioq_init over a zeroed ring head: everything is owned by North. */
    constructor (locale: Locale, count: nat, signal: Signal)
      requires count > 0
      ensures Valid() && fresh(ring) && this.locale == locale && this.count == count && this.signal == signal
      ensures Mem() == Memory(Idx(0, 0, false), Idx(0, 0, false), seq(count, i => Desc(0, 0, false, North)))
    {
      this.locale, this.count, this.signal := locale, count, signal;
      valid, inuse := Idx(0, 0, false), Idx(0, 0, false);
      ring := new Desc[count](i => Desc(0, 0, false, North));
    }

    /** idx_tail_push. */
    method TailPush(t: IdxType)
      requires Valid()
      modifies this`valid, this`inuse
      ensures Valid() && Mem() == old(Mem()).Set(t, TailPushed(old(Mem()).At(t), count))
    {
      var idx := if t == Inuse then inuse else valid;
      var tail := ModuloInc(idx.tail, count);
      if idx.head == tail {
        idx := idx.(full := true);
      }
      idx := idx.(tail := tail);
      if t == Inuse { inuse := idx; } else { valid := idx; }
    }

    /** ioq_count: on an index that counts right, the descriptors between its absolute
        head h and tail k. */
    method Count(t: IdxType) returns (c: int)
      requires Valid()
      ensures c == RingCount(Mem().At(t), count)
      ensures forall h: nat, k: nat | Exact(Mem().At(t), h, k, count) :: c == k - h
    {
      c := RingCount(if t == Inuse then inuse else valid, count);
      forall h: nat, k: nat | Exact(Mem().At(t), h, k, count)
        ensures c == k - h
      {
        CountIsExact(Mem().At(t), h, k, count);
      }
    }

    /** ioq_remain. */
    method Remain(t: IdxType) returns (c: int)
      requires Valid()
      ensures c + RingCount(Mem().At(t), count) == count
      ensures forall h: nat, k: nat | Exact(Mem().At(t), h, k, count) :: k + c == h + count
    {
      var k := Count(t);
      c := count - k;
    }

    /** ioq_full. */
    method Full(t: IdxType) returns (f: bool)
      requires Valid()
      ensures f <==> RingCount(Mem().At(t), count) == count
      ensures forall h: nat, k: nat | Exact(Mem().At(t), h, k, count) :: f <==> k == h + count
    {
      f := IdxFull(if t == Inuse then inuse else valid);
      forall h: nat, k: nat | Exact(Mem().At(t), h, k, count)
        ensures f <==> k == h + count
      {
        CountIsExact(Mem().At(t), h, k, count);
      }
    }

    /** ioq_empty. */
    method Empty(t: IdxType) returns (e: bool)
      requires Valid()
      ensures e <==> RingCount(Mem().At(t), count) == 0
      ensures forall h: nat, k: nat | Exact(Mem().At(t), h, k, count) :: e <==> k == h
    {
      var c := Count(t);
      e := c == 0;
    }
  }

  /** struct ioq_iterator. */
  class Iterator {
    const ioq: Ioq
    var idx: IdxType
    var pos: nat
    var update: bool
    var dualidx: bool
    var flipowner: bool

    ghost function Cur(): Cursor
      reads this
    {
      Cursor(idx, pos, update, dualidx, flipowner)
    }

    ghost predicate Seeked()
      reads this, ioq
    {
      ioq.Valid() && pos < ioq.count
    }

    /** ioq_iter_init: "both" iterates the valid index and drags the in-use one along. */
    constructor (ioq: Ioq, t: IdxType, flags: bv32)
      ensures this.ioq == ioq
      ensures Cur() == Cursor(if t == Inuse then Inuse else Valid, UNSEEKED,
                              flags & 1 != 0, t == Both, flags & 2 == 0)
    {
      this.ioq := ioq;
      update := flags & AUTOUPDATE != 0;
      flipowner := flags & NOFLIPOWNER == 0;
      pos := UNSEEKED;
      dualidx := t == Both;
      idx := if t == Both then Valid else t;
    }

    /** ioq_iter_seek, which refuses nothing but an absolute position behind the ring: a
        negative one succeeds, and leaves the iterator outside the ring. */
    method Seek(t: SeekType, offset: int) returns (ret: int)
      requires ioq.Valid()
      modifies this`pos
      ensures ret == if t == SeekSet && offset >= ioq.count then -1 else 0
      ensures t == SeekTail ==> Seeked() && pos == ioq.Mem().At(idx).tail
      ensures t == SeekHead ==> Seeked() && pos == ioq.Mem().At(idx).head
      ensures t == SeekNext && old(Seeked()) ==> Seeked() && pos == ModuloInc(old(pos), ioq.count)
      ensures t == SeekNext && old(pos) == UNSEEKED >= ioq.count ==> Seeked() && pos == 0
      ensures t == SeekNext ==> pos == NextPos(old(pos), ioq.count)
      ensures t == SeekSet ==>
                pos == if offset < 0 then offset % 0x1_0000_0000 else if offset < ioq.count then offset else old(pos)
    {
      var i := if idx == Inuse then ioq.inuse else ioq.valid;
      match t {
        case SeekNext => pos := NextPos(pos, ioq.count);
        case SeekTail => pos := i.tail;
        case SeekHead => pos := i.head;
        case SeekSet =>
          if offset >= ioq.count {
            return -1;
          }
          pos := if offset < 0 then offset % 0x1_0000_0000 else offset;
      }
      ret := 0;
    }

    /** ioq_iter_push.  An iterator that was never positioned is refused, as any that does not
        stand at the tail. */
    method Push() returns (ret: int)
      requires ioq.Valid()
      modifies this`pos, ioq, ioq.ring, ioq.signal
      ensures ioq.Valid() && Outcome(ret, ioq.Mem(), Cur()) == Pushed(old(ioq.Mem()), old(Cur()), ioq.locale)
      ensures ret != 0 || !update ==> unchanged(ioq.signal)
      ensures ret == 0 && update ==> ioq.signal.remote == SignalProtocol.AfterInject(old(ioq.signal.remote)) && ioq.signal.local == old(ioq.signal.local)
    {
      var tail := if idx == Inuse then ioq.inuse.tail else ioq.valid.tail;
      if pos != tail || ioq.ring[pos].sown != ioq.locale {
        return -1;
      }
      ioq.TailPush(idx);
      if dualidx {
        ioq.TailPush(Inuse);
        if ioq.inuse.tail != ioq.valid.tail {
          return -1;
        }
      }
      if flipowner {
        ioq.ring[pos] := ioq.ring[pos].(sown := Other(ioq.locale));
      }
      ret := Seek(SeekNext, 0);
      if update {
        ioq.signal.Inject();
      }
    }

    /** ioq_iter_pop. */
    method Pop() returns (ret: int)
      requires ioq.Valid()
      modifies this`pos, ioq, ioq.ring, ioq.signal
      ensures ioq.Valid() && Outcome(ret, ioq.Mem(), Cur()) == Popped(old(ioq.Mem()), old(Cur()), ioq.locale)
      ensures ret != 0 || !update ==> unchanged(ioq.signal)
      ensures ret == 0 && update ==> ioq.signal.remote == SignalProtocol.AfterInject(old(ioq.signal.remote)) && ioq.signal.local == old(ioq.signal.local)
    {
      var i := if idx == Inuse then ioq.inuse else ioq.valid;
      if pos != i.head || ioq.ring[pos].sown != ioq.locale {
        return -1;
      }
      i := i.(head := ModuloInc(i.head, ioq.count));
      if i.full {
        i := i.(full := false);
      }
      if idx == Inuse { ioq.inuse := i; } else { ioq.valid := i; }
      if flipowner {
        ioq.ring[pos] := ioq.ring[pos].(sown := Other(ioq.locale));
      }
      ret := Seek(SeekNext, 0);
      if update {
        ioq.signal.Inject();
      }
    }
  }
}
