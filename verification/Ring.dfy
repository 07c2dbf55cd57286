/** The arithmetic of one IOQ ring index: a head, a tail and a separate "full" byte over
    a ring of n slots.  Absolute positions (how many pushes or pops there ever were) are
    mapped to slots by Slot, which is the iteration of ModuloInc. */
module Ring {
  // A descriptor's owner bit "sown": South owned = 1, North owned = 0.
  datatype Locale = North | South

  function Other(l: Locale): Locale {
    if l == North then South else North
  }

  datatype Idx = Idx(head: nat, tail: nat, full: bool)

  function ModuloInc(val: nat, mod: nat): nat {
    if val == mod - 1 then 0 else val + 1
  }

  predicate IdxFull(idx: Idx) {
    idx.full && idx.head == idx.tail
  }

  function RingCount(idx: Idx, count: nat): int {
    if idx.full && idx.head == idx.tail then count
    else if idx.tail >= idx.head then idx.tail - idx.head
    else (idx.tail + count) - idx.head
  }

  /** idx_tail_push run without interference. */
  function TailPushed(idx: Idx, count: nat): Idx {
    var tail := ModuloInc(idx.tail, count);
    Idx(idx.head, tail, idx.full || idx.head == tail)
  }

  /** The head advance of ioq_iter_pop run without interference. */
  function HeadPopped(idx: Idx, count: nat): Idx {
    Idx(ModuloInc(idx.head, count), idx.tail, false)
  }

  /** The slot that absolute position a falls in. */
  function Slot(a: nat, n: nat): (s: nat)
    requires n > 0
    ensures s < n
  {
    if a == 0 then 0 else ModuloInc(Slot(a - 1, n), n)
  }

  lemma SlotNext(a: nat, n: nat)
    requires 0 < n
    ensures Slot(a + 1, n) == ModuloInc(Slot(a, n), n)
  {
  }

  /** Advancing by at most one lap, without a division. */
  lemma {:induction false} SlotAdd(a: nat, d: nat, n: nat)
    requires 0 < n && d <= n
    ensures Slot(a + d, n) == if Slot(a, n) + d < n then Slot(a, n) + d else Slot(a, n) + d - n
  {
    if d > 0 {
      SlotAdd(a, d - 1, n);
    }
  }

  /** Positions less than one lap apart never share a slot. */
  lemma SlotInjective(a: nat, b: nat, n: nat)
    requires 0 < n && a <= b < a + n
    ensures Slot(a, n) == Slot(b, n) <==> a == b
  {
    SlotAdd(a, b - a, n);
  }

  /** A slot is its position modulo the ring size: k whole laps and a remainder below n. */
  lemma {:induction false} SlotIsModulo(a: nat, n: nat) returns (k: nat)
    requires 0 < n
    ensures a == k * n + Slot(a, n)
  {
    k := 0;
    if a > 0 {
      k := SlotIsModulo(a - 1, n);
      if Slot(a - 1, n) == n - 1 {
        k := k + 1;
      }
    }
  }

  /** Every slot is met exactly once in a lap. */
  lemma SlotCover(base: nat, s: nat, n: nat) returns (a: nat)
    requires s < n
    ensures base <= a < base + n && Slot(a, n) == s
  {
    var h := Slot(base, n);
    a := if h <= s then base + (s - h) else base + (s + n - h);
    SlotAdd(base, a - base, n);
  }

  /** An index whose head and tail stand for the absolute positions h and t. */
  ghost predicate Stands(idx: Idx, h: nat, t: nat, n: nat) {
    0 < n && h <= t <= h + n && idx.head == Slot(h, n) && idx.tail == Slot(t, n)
  }

  /** When an index stands for (h, t), the stored count and the full test are right
      exactly when the full byte is set on a full ring and clear on an empty one. */
  lemma CountIsExact(idx: Idx, h: nat, t: nat, n: nat)
    requires Stands(idx, h, t, n)
    ensures RingCount(idx, n) == t - h <==> (t == h + n ==> idx.full) && (t == h ==> !idx.full)
    ensures RingCount(idx, n) == t - h ==> (IdxFull(idx) <==> t == h + n)
    ensures 0 <= RingCount(idx, n) <= n
  {
    SlotAdd(h, t - h, n);
  }

  /** An index that stands for (h, t) and whose count is right. */
  ghost predicate Exact(idx: Idx, h: nat, t: nat, n: nat) {
    Stands(idx, h, t, n) && (t == h + n ==> idx.full) && (t == h ==> !idx.full)
  }

  lemma TailPushIsExact(idx: Idx, h: nat, t: nat, n: nat)
    requires Exact(idx, h, t, n) && t < h + n
    ensures Exact(TailPushed(idx, n), h, t + 1, n)
  {
    SlotAdd(h, t + 1 - h, n);
  }

  lemma HeadPopIsExact(idx: Idx, h: nat, t: nat, n: nat)
    requires Exact(idx, h, t, n) && h < t
    ensures Exact(HeadPopped(idx, n), h + 1, t, n)
  {
    SlotNext(h, n);
  }
}
