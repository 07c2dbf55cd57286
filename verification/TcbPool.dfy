/** The transfer control blocks: a free list, a busy list, a counter of free blocks and the
    event that says that nothing is being sent. */
module TcbPool {
  import opened Runs
  import opened SendQueue

  /** The pool part of ADAPTER. */
  datatype Pool<T> = Pool(free: seq<T>, busy: seq<T>, numFree: int, event: bool)

  /** Free and busy blocks partition the blocks set up, the counter counts the free ones,
      and the event is set exactly while none is busy. */
  ghost predicate Conserved<T>(p: Pool<T>, blocks: multiset<T>) {
    && multiset(p.free) + multiset(p.busy) == blocks
    && p.numFree == |p.free|
    && (p.event <==> p.busy == [])
  }

  // RemoveEntryList.
  function Without<T(==)>(q: seq<T>, t: T): (r: seq<T>)
    requires t in q
    ensures multiset(r) + multiset{t} == multiset(q)
  {
    assert q == [q[0]] + q[1..];
    if q[0] == t then q[1..] else [q[0]] + Without(q[1..], t)
  }

  // VenetAllocTCB: NULL on an empty free list.
  function Allocated<T>(p: Pool<T>): Pool<T> {
    if p.free == [] then p
    else Pool(p.free[1..], [p.free[0]] + p.busy, p.numFree - 1, false)
  }

  // VenetReleaseTCB of a busy block.
  function Released<T(==)>(p: Pool<T>, t: T): Pool<T>
    requires t in p.busy
  {
    var busy := Without(p.busy, t);
    Pool([t] + p.free, busy, p.numFree + 1, p.event || busy == [])
  }

  lemma AllocConserves<T>(p: Pool<T>, blocks: multiset<T>)
    requires Conserved(p, blocks)
    ensures Conserved(Allocated(p), blocks)
  {
    if p.free != [] {
      assert p.free == [p.free[0]] + p.free[1..];
    }
  }

  lemma ReleaseConserves<T>(p: Pool<T>, t: T, blocks: multiset<T>)
    requires Conserved(p, blocks) && t in p.busy
    ensures Conserved(Released(p, t), blocks)
  {
    assert multiset([t] + p.free) == multiset{t} + multiset(p.free);
  }

  // -------- the walk of SrProcessNBL, with other contexts releasing blocks --------

  type Block = nat

  datatype WalkStatus = Walking | Refused | Sent | Failed | NullBlock

  datatype Walk = Walk(pool: Pool<Block>, left: nat, held: seq<Block>, status: WalkStatus)

  // The pre-check compares the stored count of net buffers with the free counter.
  function Start(pool: Pool<Block>, count: nat): Walk {
    Walk(pool, count, [], if count > pool.numFree then Refused else if count == 0 then Sent else Walking)
  }

  // The sender handles its next net buffer, which is copied and submitted or fails;
  // another context releases a busy block.
  datatype Move = Buffer(ok: bool) | Other(b: Block)

  function Next(w: Walk, m: Move): Walk {
    match m
    case Buffer(ok) =>
      if w.status != Walking || w.left == 0 then w
      else if w.pool.free == [] then w.(status := NullBlock)
      else
        var pool, tcb := Allocated(w.pool), w.pool.free[0];
        if !ok then w.(pool := Released(pool, tcb), status := Failed)
        else w.(pool := pool, left := w.left - 1, held := w.held + [tcb], status := if w.left == 1 then Sent else Walking)
    case Other(b) =>
      if b in w.pool.busy then w.(pool := Released(w.pool, b)) else w
  }

  ghost predicate WalkInv(w: Walk, blocks: multiset<Block>, count: nat) {
    && Conserved(w.pool, blocks) && w.status != NullBlock
    && (w.status == Walking ==> 0 < w.left <= |w.pool.free|)
    && (w.status == Walking || w.status == Sent || w.status == Failed ==> w.left + |w.held| == count)
    && (w.status == Sent ==> w.left == 0)
  }

  lemma BufferKeeps(w: Walk, ok: bool, blocks: multiset<Block>, count: nat)
    requires WalkInv(w, blocks, count)
    ensures WalkInv(Next(w, Buffer(ok)), blocks, count)
  {
    AllocConserves(w.pool, blocks);
    if w.status == Walking {
      var tcb := w.pool.free[0];
      ReleaseConserves(Allocated(w.pool), tcb, blocks);
      assert ([tcb] + w.pool.busy)[1..] == w.pool.busy;
    }
  }

  lemma OtherKeeps(w: Walk, b: Block, blocks: multiset<Block>, count: nat)
    requires WalkInv(w, blocks, count)
    ensures WalkInv(Next(w, Other(b)), blocks, count)
  {
    if b in w.pool.busy { ReleaseConserves(w.pool, b, blocks); }
  }

  /** The pre-check is enough: every allocation in the walk of an admitted list gets a block,
      however the outcomes fall and whatever busy blocks other contexts release meanwhile,
      also those of the list itself.  A list that is sent took one block per net buffer, and
      the pool is conserved throughout. */
  lemma AdmittedWalkNeverFindsNull(pool: Pool<Block>, blocks: multiset<Block>, nbl: NetBuffers, ms: seq<Move>)
    requires Conserved(pool, blocks)
    ensures var w := Run(Next, Start(pool, Length(nbl)), ms);
            && w.status != NullBlock
            && (w.status == Refused <==> Length(nbl) > |pool.free|)
            && (w.status == Sent ==> |w.held| == Length(nbl))
            && Conserved(w.pool, blocks)
  {
    var count := Length(nbl);
    var refused := count > |pool.free|;
    var inv := (w: Walk) => WalkInv(w, blocks, count) && (w.status == Refused <==> refused);
    forall w, m | inv(w)
      ensures inv(Next(w, m))
    {
      match m {
        case Buffer(ok) => BufferKeeps(w, ok, blocks, count);
        case Other(b) => OtherKeeps(w, b, blocks, count);
      }
    }
    RunKeeps(Next, inv, Start(pool, count), ms);
  }

  // No move of the run releases a block the list has submitted.
  predicate Spared(w: Walk, ms: seq<Move>)
    decreases |ms|
  {
    ms == [] || ((ms[0].Other? ==> ms[0].b !in w.held) && Spared(Next(w, ms[0]), ms[1..]))
  }

  ghost predicate HeldAreBusy(w: Walk) {
    forall b | b in w.held :: b in multiset(w.pool.busy)
  }

  lemma SparedStep(w: Walk, m: Move)
    requires HeldAreBusy(w) && (m.Other? ==> m.b !in w.held)
    ensures HeldAreBusy(Next(w, m))
  {
    match m {
      case Buffer(ok) =>
        if w.pool.free != [] {
          var tcb := w.pool.free[0];
          assert ([tcb] + w.pool.busy)[1..] == w.pool.busy;
        }
      case Other(_) =>
    }
  }

  lemma {:induction false} SparedRun(w: Walk, ms: seq<Move>)
    requires HeldAreBusy(w) && Spared(w, ms)
    ensures HeldAreBusy(Run(Next, w, ms))
    decreases |ms|
  {
    if ms != [] {
      SparedStep(w, ms[0]);
      SparedRun(Next(w, ms[0]), ms[1..]);
    }
  }

  /** The blocks of the buffers already submitted stay busy, also when a later buffer of the
      list fails, until another context releases one of them. */
  lemma HeldStayBusy(pool: Pool<Block>, nbl: NetBuffers, ms: seq<Move>)
    requires Spared(Start(pool, Length(nbl)), ms)
    ensures var w := Run(Next, Start(pool, Length(nbl)), ms); forall b | b in w.held :: b in w.pool.busy
  {
    SparedRun(Start(pool, Length(nbl)), ms);
  }

  /** Any run of allocations and releases of busy blocks. */
  datatype PoolMove = Alloc | Release(b: Block)

  function PoolNext(p: Pool<Block>, m: PoolMove): Pool<Block> {
    match m
    case Alloc => Allocated(p)
    case Release(b) => if b in p.busy then Released(p, b) else p
  }

  lemma PoolConserved(p: Pool<Block>, blocks: multiset<Block>, ms: seq<PoolMove>)
    requires Conserved(p, blocks)
    ensures Conserved(Run(PoolNext, p, ms), blocks)
  {
    var inv := (p: Pool<Block>) => Conserved(p, blocks);
    forall p, m | inv(p)
      ensures inv(PoolNext(p, m))
    {
      match m {
        case Alloc => AllocConserves(p, blocks);
        case Release(b) => if b in p.busy { ReleaseConserves(p, b, blocks); }
      }
    }
    RunKeeps(PoolNext, inv, p, ms);
  }

  // -------- the driver's own structures --------

  class Tcb {
    var nbl: NetBufferList?
    var status: int
    var nbCount: nat

    /** VenetAlloc zeroes the block. */
    constructor ()
      ensures nbl == null
    {
      nbl, status, nbCount := null, 0, 0;
    }
  }

  /** The first buffer whose copy or submission fails, or their number if none does. */
  function FirstFailure(outcomes: seq<bool>): (k: nat)
    ensures k <= |outcomes| && (k < |outcomes| ==> !outcomes[k])
    ensures forall i | 0 <= i < k :: outcomes[i]
  {
    if outcomes == [] || !outcomes[0] then 0 else 1 + FirstFailure(outcomes[1..])
  }

  // Blocks in the order allocations push them on the busy list.
  function Reversed<T>(q: seq<T>): seq<T> {
    if q == [] then [] else [q[|q| - 1]] + Reversed(q[..|q| - 1])
  }

  lemma ReversedStep<T>(q: seq<T>, i: nat)
    requires i < |q|
    ensures Reversed(q[..i + 1]) == [q[i]] + Reversed(q[..i])
  {
    assert q[..i + 1][..i] == q[..i];
  }

  /** What a walk leaves that failed after k buffers: their blocks stay busy. */
  function Leaked<T>(p: Pool<T>, k: nat): Pool<T>
    requires k <= |p.free|
  {
    Pool(p.free[k..], Reversed(p.free[..k]) + p.busy, p.numFree - k, p.event && k == 0)
  }

  lemma TakenIsLeaked<T>(p: Pool<T>, was: Pool<T>, k: nat, blocks: multiset<T>)
    requires Conserved(p, blocks) && Conserved(was, blocks) && Taken(p, was, k)
    ensures p == Leaked(was, k)
  {
    if k == 0 { assert Reversed(was.free[..0]) + was.busy == was.busy; }
  }

  /** A walk leaves the pool as it was exactly if no buffer before the failed one took a block. */
  lemma UnchangedExactlyIfNoneTaken<T>(p: Pool<T>, k: nat)
    requires k <= |p.free|
    ensures Leaked(p, k) == p <==> k == 0
  {
    if k == 0 { assert Reversed(p.free[..0]) + p.busy == p.busy; }
  }

  /** The pool after so many tries of a list of count buffers whose buffer k keeps failing, with
      nobody releasing blocks in between: a failed list goes back to the head of the queue. */
  function Retried<T>(p: Pool<T>, count: nat, k: nat, tries: nat): (q: Pool<T>)
    requires p.numFree == |p.free| && k <= count
    ensures q.numFree == |q.free|
  {
    if tries == 0 then p
    else
      var q := Retried(p, count, k, tries - 1);
      if count > q.numFree then q else Leaked(q, k)
  }

  lemma {:induction false} RetriedFirst<T>(p: Pool<T>, count: nat, k: nat, tries: nat)
    requires p.numFree == |p.free| && k <= count <= p.numFree
    ensures Retried(p, count, k, tries + 1) == Retried(Leaked(p, k), count, k, tries)
  {
    if tries > 0 { RetriedFirst(p, count, k, tries - 1); }
  }

  lemma {:induction false} RetriedRefused<T>(p: Pool<T>, count: nat, k: nat, tries: nat)
    requires p.numFree == |p.free| && k <= count && count > p.numFree
    ensures Retried(p, count, k, tries) == p
  {
    if tries > 0 { RetriedRefused(p, count, k, tries - 1); }
  }

  lemma {:induction false} RetriedSame<T>(p: Pool<T>, count: nat, tries: nat)
    requires p.numFree == |p.free|
    ensures Retried(p, count, 0, tries) == p
  {
    if tries > 0 {
      RetriedSame(p, count, tries - 1);
      UnchangedExactlyIfNoneTaken(p, 0);
    }
  }

  /** A list whose buffer k > 0 keeps failing takes k more blocks with every try, until it is
      refused, and is then refused on every later try. */
  lemma {:induction false} RetriesExhaust<T>(p: Pool<T>, count: nat, k: nat) returns (r: nat)
    requires p.numFree == |p.free| && 0 < k <= count
    ensures Retried(p, count, k, r).numFree == p.numFree - r * k < count
    ensures r > 0 ==> p.numFree - (r - 1) * k >= count
    ensures forall j: nat | j >= r :: Retried(p, count, k, j) == Retried(p, count, k, r)
    decreases |p.free|
  {
    if count > p.numFree {
      r := 0;
      forall j: nat
        ensures Retried(p, count, k, j) == p
      {
        RetriedRefused(p, count, k, j);
      }
    } else {
      var q := Leaked(p, k);
      var before := RetriesExhaust(q, count, k);
      r := before + 1;
      RetriedFirst(p, count, k, before);
      assert r * k == before * k + k;
      if before > 0 { assert (r - 1) * k == (before - 1) * k + k; }
      forall j: nat | j >= r
        ensures Retried(p, count, k, j) == Retried(p, count, k, r)
      {
        RetriedFirst(p, count, k, j - 1);
      }
    }
  }

  /** So retries use the pool up exactly if a buffer before the failing one took a block. */
  lemma ExhaustedExactlyIfTaken<T>(p: Pool<T>, count: nat, k: nat)
    requires p.numFree == |p.free| && k <= count <= p.numFree
    ensures (exists r: nat :: Retried(p, count, k, r).numFree < count) <==> k > 0
  {
    if k > 0 {
      var r := RetriesExhaust(p, count, k);
    } else {
      forall r: nat
        ensures Retried(p, count, k, r) == p
      {
        RetriedSame(p, count, r);
      }
    }
  }

  // -------- the walk without other contexts --------

  function Buffers(outcomes: seq<bool>): seq<Move> {
    seq(|outcomes|, i requires 0 <= i < |outcomes| => Buffer(outcomes[i]))
  }

  lemma {:induction false} EndedWalkStays(w: Walk, outcomes: seq<bool>)
    requires w.status != Walking
    ensures Run(Next, w, Buffers(outcomes)) == w
    decreases |outcomes|
  {
    if outcomes != [] {
      assert Buffers(outcomes)[1..] == Buffers(outcomes[1..]);
      EndedWalkStays(w, outcomes[1..]);
    }
  }

  lemma {:induction false} ReversedFront<T>(q: seq<T>)
    requires q != []
    ensures Reversed(q) == Reversed(q[1..]) + [q[0]]
    decreases |q|
  {
    if |q| > 1 {
      var init := q[..|q| - 1];
      ReversedFront(init);
      assert init[1..] == q[1..][..|q| - 2];
    }
  }

  // One block taken, and then k more.
  lemma LeakedTwice<T>(p: Pool<T>, k: nat)
    requires k < |p.free|
    ensures Allocated(p) == Leaked(p, 1)
    ensures Leaked(Allocated(p), k) == Leaked(p, k + 1)
  {
    ReversedFront(p.free[..k + 1]);
    assert p.free[..k + 1][1..] == p.free[1..][..k];
    assert Reversed(p.free[..1]) == [p.free[0]] + Reversed(p.free[..0]);
  }

  // A failed buffer's block goes back.
  lemma AllocReleased<T>(p: Pool<T>, blocks: multiset<T>)
    requires Conserved(p, blocks) && p.free != []
    ensures Released(Allocated(p), p.free[0]) == p
  {
    var t := p.free[0];
    assert ([t] + p.busy)[1..] == p.busy;
    assert [t] + p.free[1..] == p.free;
  }

  // The rest of a walk.
  lemma {:induction false} RestOfWalk(w: Walk, outcomes: seq<bool>, blocks: multiset<Block>)
    requires Conserved(w.pool, blocks) && w.status == Walking && 0 < w.left == |outcomes| <= |w.pool.free|
    ensures var r := Run(Next, w, Buffers(outcomes));
            && r.pool == Leaked(w.pool, FirstFailure(outcomes))
            && r.status == if FirstFailure(outcomes) == |outcomes| then Sent else Failed
    decreases |outcomes|
  {
    var next := Next(w, Buffer(outcomes[0]));
    assert Buffers(outcomes)[1..] == Buffers(outcomes[1..]);
    if !outcomes[0] {
      AllocReleased(w.pool, blocks);
      UnchangedExactlyIfNoneTaken(w.pool, 0);
      EndedWalkStays(next, outcomes[1..]);
    } else {
      LeakedTwice(w.pool, FirstFailure(outcomes[1..]));
      AllocConserves(w.pool, blocks);
      if w.left == 1 {
        EndedWalkStays(next, outcomes[1..]);
      } else {
        RestOfWalk(next, outcomes[1..], blocks);
      }
    }
  }

  /** The steps of a walk that nobody interrupts amount to one try: it is refused, or leaves
      the blocks of the buffers before the first failure busy and all others where they were. */
  lemma WalkAloneIsTry(pool: Pool<Block>, outcomes: seq<bool>, blocks: multiset<Block>)
    requires Conserved(pool, blocks)
    ensures var w := Run(Next, Start(pool, |outcomes|), Buffers(outcomes));
            && w.pool == Retried(pool, |outcomes|, FirstFailure(outcomes), 1)
            && w.status == (if |outcomes| > |pool.free| then Refused
                            else if FirstFailure(outcomes) == |outcomes| then Sent else Failed)
  {
    assert Retried(pool, |outcomes|, FirstFailure(outcomes), 0) == pool;
    var w := Start(pool, |outcomes|);
    if w.status == Walking {
      RestOfWalk(w, outcomes, blocks);
    } else {
      EndedWalkStays(w, outcomes);
      if outcomes == [] { UnchangedExactlyIfNoneTaken(pool, 0); }
    }
  }

  /** No block is on the free list twice. */
  lemma FreeDistinct<T>(p: Pool<T>, blocks: set<T>, i: nat, j: nat)
    requires Conserved(p, multiset(blocks)) && i < j < |p.free|
    ensures p.free[i] != p.free[j]
  {
    var x := p.free[j];
    assert p.free == p.free[..j] + [x] + p.free[j + 1..];
    assert multiset(p.free)[x] <= multiset(blocks)[x] <= 1;
    assert multiset(p.free[..j])[x] == 0;
    assert p.free[i] in p.free[..j];
  }

  /** The walk after i buffers that all went well. */
  ghost predicate Taken<T>(p: Pool<T>, was: Pool<T>, i: nat) {
    i <= |was.free| && p.free == was.free[i..] && p.busy == Reversed(was.free[..i]) + was.busy
  }

  lemma TakenStep<T>(p: Pool<T>, was: Pool<T>, i: nat)
    requires Taken(p, was, i) && i < |was.free|
    ensures p.free != [] && p.free[0] == was.free[i]
    ensures Taken(Allocated(p), was, i + 1)
    ensures var t := Allocated(p).busy[0]; Taken(Released(Allocated(p), t), was, i)
  {
    ReversedStep(was.free, i);
    assert Without(Allocated(p).busy, p.free[0]) == p.busy;
  }

  datatype SetupStatus = SetUp | NoMemory | Failure

  class Adapter {
    var tcbFree: seq<Tcb>
    var tcbBusy: seq<Tcb>
    var numTcbs: nat
    var numTCBsFree: int
    var sendEvent: bool
    // the blocks set up
    ghost var blocks: set<Tcb>

    ghost function View(): Pool<Tcb>
      reads this
    {
      Pool(tcbFree, tcbBusy, numTCBsFree, sendEvent)
    }

    ghost predicate Valid()
      reads this
    {
      Conserved(View(), multiset(blocks))
    }

    /** The send part of VenetSetupAdapter: empty lists and a set event. */
    constructor (numTcbs: nat)
      ensures Valid() && blocks == {} && this.numTcbs == numTcbs && tcbFree == tcbBusy == []
    {
      this.numTcbs := numTcbs;
      tcbFree, tcbBusy, numTCBsFree, sendEvent, blocks := [], [], 0, true, {};
    }

    /** VenetFreeTx: both lists are emptied, the counter is not. */
    method FreeTx()
      modifies this`tcbFree, this`tcbBusy, this`blocks
      ensures tcbFree == tcbBusy == [] && blocks == {}
    {
      while tcbFree != [] {
        tcbFree := tcbFree[1..];
      }
      while tcbBusy != []
        invariant tcbFree == []
      {
        tcbBusy := tcbBusy[1..];
      }
      blocks := {};
    }

    // The allocation loop of VenetSetupTx.
    method FillFree(memory: nat) returns (ok: bool)
      requires Valid() && blocks == {} && tcbFree == tcbBusy == []
      modifies this`tcbFree, this`blocks
      ensures ok <==> numTcbs <= memory
      ensures |tcbFree| == |blocks| == (if ok then numTcbs else memory) && multiset(tcbFree) == multiset(blocks)
      ensures fresh(blocks)
    {
      for i := 0 to numTcbs
        invariant multiset(tcbFree) == multiset(blocks) && |tcbFree| == |blocks| == i <= memory
        invariant fresh(blocks)
      {
        if i == memory {
          return false;
        }
        var t := new Tcb();
        assert t !in multiset(tcbFree);
        tcbFree := [t] + tcbFree;
        blocks := blocks + {t};
      }
      ok := true;
    }

    /** VenetSetupTx, when there is memory for so many blocks, and the bus has a handle or not.
        A setup that fails leaves a counter that does not count the free list, unless no block
        was wanted or none could be had. */
    method SetupTx(memory: nat, haveHandle: bool) returns (status: SetupStatus)
      requires Valid() && blocks == {} && tcbFree == tcbBusy == []
      modifies this
      ensures numTcbs == old(numTcbs)
      ensures status == if numTcbs > memory then NoMemory else if haveHandle then SetUp else Failure
      ensures status == SetUp ==> Valid() && |tcbFree| == numTcbs == |blocks| && tcbBusy == [] && fresh(blocks)
      ensures status == Failure ==> tcbFree == tcbBusy == [] && numTCBsFree == numTcbs && (Valid() <==> numTcbs == 0)
      ensures status == NoMemory ==> |tcbFree| == memory && numTCBsFree == 0 && (Valid() <==> memory == 0)
    {
      var ok := FillFree(memory);
      if !ok {
        return NoMemory;
      }
      numTCBsFree := numTcbs;
      if !haveHandle {
        FreeTx();
        return Failure;
      }
      status := SetUp;
    }

    /** VenetAllocTCB. */
    method AllocTCB(nbl: NetBufferList) returns (t: Tcb?)
      requires Valid()
      modifies this, (if tcbFree == [] then {} else {tcbFree[0]})
      ensures Valid() && View() == Allocated(old(View())) && blocks == old(blocks)
      ensures t == null <==> old(tcbFree) == []
      ensures t != null ==> t == old(tcbFree[0]) && t.nbl == nbl && t.status == 0 && t.nbCount == 0
    {
      t := null;
      AllocConserves(View(), multiset(blocks));
      if tcbFree != [] {
        t := tcbFree[0];
        tcbFree := tcbFree[1..];
        t.status, t.nbCount, t.nbl := 0, 0, nbl;
        tcbBusy := [t] + tcbBusy;
        sendEvent := false;
        numTCBsFree := numTCBsFree - 1;
      }
    }

    /** VenetReleaseTCB of a busy block. */
    method ReleaseTCB(t: Tcb)
      requires Valid() && t in tcbBusy
      modifies this
      ensures Valid() && View() == Released(old(View()), t) && blocks == old(blocks)
    {
      ReleaseConserves(View(), t, multiset(blocks));
      tcbBusy := Without(tcbBusy, t);
      tcbFree := [t] + tcbFree;
      numTCBsFree := numTCBsFree + 1;
      if tcbBusy == [] {
        sendEvent := true;
      }
    }

    /** The first i free blocks went to the list, in their order, and nothing else moved. */
    ghost predicate Given(was: Pool<Tcb>, i: nat, nbl: NetBufferList)
      reads this, was.free
    {
      && Valid() && Conserved(was, multiset(blocks)) && Taken(View(), was, i)
      && forall j | 0 <= j < i :: was.free[j].nbl == nbl
    }

    // One pass of the walk, over buffer i of an admitted list.
    method ProcessOne(nbl: NetBufferList, ok: bool, ghost was: Pool<Tcb>, ghost i: nat)
      requires Given(was, i, nbl) && i < |was.free|
      modifies this, was.free
      ensures Given(was, if ok then i + 1 else i, nbl) && blocks == old(blocks)
    {
      TakenStep(View(), was, i);
      forall j | 0 <= j < i
        ensures was.free[j] != was.free[i]
      {
        FreeDistinct(was, blocks, j, i);
      }
      var tcb := AllocTCB(nbl);
      if !ok {
        ReleaseTCB(tcb);
      }
    }

    // The walk of an admitted list, whose first k buffers go well, and no more.
    method WalkNBL(nbl: NetBufferList, outcomes: seq<bool>, ghost was: Pool<Tcb>, ghost k: nat) returns (ok: bool)
      requires Given(was, 0, nbl) && Length(nbl.firstNb) == |outcomes| <= |was.free|
      requires k <= |outcomes| && (k < |outcomes| ==> !outcomes[k]) && forall j | 0 <= j < k :: outcomes[j]
      modifies this, was.free
      ensures Given(was, k, nbl) && blocks == old(blocks)
      ensures ok <==> k == |outcomes|
    {
      var nb, i := nbl.firstNb, 0;
      while nb != NoMore
        invariant i + Length(nb) == |outcomes| && i <= k && blocks == old(blocks)
        invariant Given(was, i, nbl)
        decreases nb
      {
        ProcessOne(nbl, outcomes[i], was, i);
        if !outcomes[i] {
          return false;
        }
        nb := nb.next;
        i := i + 1;
      }
      ok := true;
    }

    /** SrProcessNBL, alone with the pool, where outcomes says for each buffer whether its copy
        and submission go well.  It refuses the list exactly when it has more buffers than
        there are free blocks; otherwise every allocation gets a block, one for each buffer
        before the first failure, and the block of the failed buffer goes back. */
    method ProcessNBL(sendingNBL: NetBufferList, outcomes: seq<bool>) returns (rc: WalkStatus)
      requires Valid() && sendingNBL.count == Length(sendingNBL.firstNb) == |outcomes|
      modifies this, tcbFree
      ensures Valid() && blocks == old(blocks)
      ensures |outcomes| > old(|tcbFree|) ==> rc == Refused && View() == old(View())
      ensures |outcomes| <= old(|tcbFree|) ==>
                && rc == (if FirstFailure(outcomes) == |outcomes| then Sent else Failed)
                && Given(old(View()), FirstFailure(outcomes), sendingNBL)
      ensures View() == Retried(old(View()), |outcomes|, FirstFailure(outcomes), 1)
    {
      if sendingNBL.count > numTCBsFree {
        return Refused;
      }
      ghost var was := View();
      var ok := WalkNBL(sendingNBL, outcomes, was, FirstFailure(outcomes));
      TakenIsLeaked(View(), was, FirstFailure(outcomes), multiset(blocks));
      assert Retried(was, |outcomes|, FirstFailure(outcomes), 0) == was;
      rc := if ok then Sent else Failed;
    }
  }
}
