/** The send path under its lock: any number of threads enter VenetSendNetBufs, run the
    loop of SrProcessQueue or cancel, one critical section at a time. */
module SendOrder {
  import opened Runs
  import opened Subsequences

  // A submission of a net buffer list.
  type List = nat

  datatype Lock = Free | Held(holder: nat)

  /** Where a thread is.  Want... spins on sendLock; In... holds it. */
  datatype Pc =
    | Outside
    | WantAccept(lists: seq<List>) | InAccept(lists: seq<List>)
    | WantTop | InTop
    // SrProcessNBL runs without the lock
    | Processing(nbl: List)
    | WantBack(nbl: List, ok: bool) | InBack(nbl: List, ok: bool)
    | WantCancel(gone: set<nat>) | InCancel(gone: set<nat>)

  datatype State = State(
    // whether the loop gives up the lock after a success before it takes it again
    unlocks: bool,
    ready: bool, lock: Lock, queue: seq<List>,
    // sendingNBL: empty for NULL
    sending: seq<List>,
    threads: seq<Pc>,
    // history
    accepted: seq<List>, processed: seq<List>, cancelled: seq<List>)

  datatype Move = Send(t: nat, lists: seq<List>) | Cancel(t: nat, gone: set<nat>) | Finish(t: nat, ok: bool) | Go(t: nat)
                | SetReady(ready: bool)

  function Init(threads: nat, unlocks: bool): State {
    State(unlocks, true, Free, [], [], seq(threads, _ => Outside), [], [], [])
  }

  // What is left of a queue when the lists at the given places are taken out.
  function Kept(q: seq<List>, gone: set<nat>): seq<List> {
    if q == [] then []
    else
      var last := |q| - 1;
      if last in gone then Kept(q[..last], gone) else Kept(q[..last], gone) + [q[last]]
  }

  function Taken(q: seq<List>, gone: set<nat>): seq<List> {
    if q == [] then []
    else
      var last := |q| - 1;
      if last in gone then Taken(q[..last], gone) + [q[last]] else Taken(q[..last], gone)
  }

  function At(s: State, t: nat, pc: Pc): State
    requires t < |s.threads|
  {
    s.(threads := s.threads[t := pc])
  }

  // The thread takes the lock if it is free, and spins otherwise, also on its own hold.
  function Acquire(s: State, t: nat, pc: Pc): State
    requires t < |s.threads|
  {
    if s.lock == Free then At(s, t, pc).(lock := Held(t)) else s
  }

  function Release(s: State, t: nat, pc: Pc): State
    requires t < |s.threads|
  {
    At(s, t, pc).(lock := Free)
  }

  function GoStep(s: State, t: nat): (r: State)
    requires t < |s.threads|
    ensures |r.threads| == |s.threads| && r.unlocks == s.unlocks && r.ready == s.ready
    ensures forall i | 0 <= i < |s.threads| && i != t :: r.threads[i] == s.threads[i]
  {
    match s.threads[t]
    case Outside => s
    case WantAccept(lists) => Acquire(s, t, InAccept(lists))
    case InAccept(lists) =>
      if !s.ready then Release(s, t, Outside)
      else Release(s, t, WantTop).(queue := s.queue + lists, accepted := s.accepted + lists)
    case WantTop => Acquire(s, t, InTop)
    case InTop =>
      if s.sending != [] || s.queue == [] || !s.ready then Release(s, t, Outside)
      else Release(s, t, Processing(s.queue[0])).(sending := [s.queue[0]], queue := s.queue[1..])
    case Processing(_) => s
    case WantBack(nbl, ok) => Acquire(s, t, InBack(nbl, ok))
    case InBack(nbl, ok) =>
      if !ok then Release(s, t, Outside).(queue := s.sending + s.queue, sending := [])
      else if s.unlocks then Release(s, t, WantTop).(processed := s.processed + s.sending, sending := [])
      else At(s, t, WantTop).(processed := s.processed + s.sending, sending := [])
    case WantCancel(gone) => Acquire(s, t, InCancel(gone))
    case InCancel(gone) =>
      Release(s, t, Outside).(queue := Kept(s.queue, gone), cancelled := s.cancelled + Taken(s.queue, gone))
  }

  function Next(s: State, m: Move): State {
    match m
    case Send(t, lists) => if t < |s.threads| && s.threads[t] == Outside then At(s, t, WantAccept(lists)) else s
    case Cancel(t, gone) => if t < |s.threads| && s.threads[t] == Outside then At(s, t, WantCancel(gone)) else s
    case Finish(t, ok) =>
      if t < |s.threads| && s.threads[t].Processing? then At(s, t, WantBack(s.threads[t].nbl, ok)) else s
    case Go(t) => if t < |s.threads| then GoStep(s, t) else s
    case SetReady(ready) => s.(ready := ready)
  }

  // -------- the inductive invariant --------

  predicate InLock(pc: Pc) {
    pc.InAccept? || pc.InTop? || pc.InBack? || pc.InCancel?
  }

  predicate InFlight(pc: Pc) {
    pc.Processing? || pc.WantBack? || pc.InBack?
  }

  /** Only the holder is in a critical section, and only a thread the code lets go round its
      loop with the lock can hold it outside one. */
  predicate Mutex(s: State) {
    && (forall i | 0 <= i < |s.threads| :: InLock(s.threads[i]) ==> s.lock == Held(i))
    && (s.lock.Held? ==> s.lock.holder < |s.threads|)
    && (s.lock.Held? && !InLock(s.threads[s.lock.holder]) ==> !s.unlocks && s.threads[s.lock.holder] == WantTop)
  }

  /** At most one thread is in flight, with the list sendingNBL names. */
  predicate OneInFlight(s: State) {
    && |s.sending| <= 1
    && (forall i | 0 <= i < |s.threads| :: InFlight(s.threads[i]) ==> s.sending == [s.threads[i].nbl])
    && (forall i, j | 0 <= i < |s.threads| && 0 <= j < |s.threads| ::
          InFlight(s.threads[i]) && InFlight(s.threads[j]) ==> i == j)
  }

  function InSystem(s: State): seq<List> {
    s.processed + s.sending + s.queue
  }

  ghost predicate Ordered(s: State) {
    && Subsequence(InSystem(s), s.accepted)
    && multiset(InSystem(s)) + multiset(s.cancelled) == multiset(s.accepted)
    && (s.cancelled == [] ==> InSystem(s) == s.accepted)
  }

  // As written, the first success leaves its thread spinning on a lock it holds itself.
  predicate Stuck(s: State) {
    s.lock.Held? && s.lock.holder < |s.threads| && s.threads[s.lock.holder] == WantTop
  }

  predicate OnlyOne(s: State) {
    !s.unlocks ==> |s.processed| <= 1 && (s.processed != [] <==> Stuck(s))
  }

  ghost predicate Inv(s: State) {
    Mutex(s) && OneInFlight(s) && Ordered(s) && OnlyOne(s)
  }

  // A step of t's thread touches the lock only to take it when free or to give it up.
  lemma GoLock(s: State, t: nat)
    requires t < |s.threads| && Mutex(s)
    ensures var r := GoStep(s, t);
            && (s.lock != Free && s.lock != Held(t) ==> r.lock == s.lock)
            && (s.lock == Free ==> r.lock == Free || r.lock == Held(t))
            && (s.lock == Held(t) ==> r.lock == Free || r.lock == s.lock)
            && (InLock(r.threads[t]) ==> r.lock == Held(t))
            && (r.lock == Held(t) && !InLock(r.threads[t]) ==> !s.unlocks && r.threads[t] == WantTop)
  {
  }

  lemma GoKeepsMutex(s: State, t: nat)
    requires t < |s.threads| && Mutex(s)
    ensures Mutex(GoStep(s, t))
  {
    GoLock(s, t);
    var r := GoStep(s, t);
    forall i | 0 <= i < |r.threads| && InLock(r.threads[i])
      ensures r.lock == Held(i)
    {
      if i != t { assert r.threads[i] == s.threads[i]; }
    }
  }

  // What such a step does to the list in flight.
  predicate FlightKept(s: State, r: State, t: nat) {
    && t < |s.threads| && t < |r.threads| && |r.sending| <= 1
    && (InFlight(r.threads[t]) ==> r.sending == [r.threads[t].nbl])
    && (InFlight(r.threads[t]) && !InFlight(s.threads[t]) ==> s.sending == [])
    && (s.sending != [] && !InFlight(s.threads[t]) ==> r.sending == s.sending)
  }

  lemma TopFlight(s: State, t: nat)
    requires t < |s.threads| && |s.sending| <= 1 && s.threads[t].InTop?
    ensures FlightKept(s, GoStep(s, t), t)
  {
  }

  lemma BackFlight(s: State, t: nat)
    requires t < |s.threads| && |s.sending| <= 1 && s.threads[t].InBack?
    ensures FlightKept(s, GoStep(s, t), t)
  {
  }

  lemma GoFlight(s: State, t: nat)
    requires t < |s.threads| && |s.sending| <= 1
    requires InFlight(s.threads[t]) ==> s.sending == [s.threads[t].nbl]
    ensures FlightKept(s, GoStep(s, t), t)
  {
    match s.threads[t] {
      case InTop => TopFlight(s, t);
      case InBack(_, _) => BackFlight(s, t);
      case _ =>
    }
  }

  lemma GoKeepsOneInFlight(s: State, t: nat)
    requires t < |s.threads| && OneInFlight(s)
    ensures OneInFlight(GoStep(s, t))
  {
    GoFlight(s, t);
    var r := GoStep(s, t);
    forall i | 0 <= i < |r.threads| && i != t && InFlight(r.threads[i])
      ensures r.sending == [r.threads[i].nbl] && !InFlight(r.threads[t])
    {
      assert r.threads[i] == s.threads[i] && InFlight(s.threads[i]);
    }
  }

  lemma {:induction false} KeptSubsequence(q: seq<List>, gone: set<nat>)
    ensures Subsequence(Kept(q, gone), q)
  {
    if q != [] {
      var init, last := q[..|q| - 1], q[|q| - 1];
      KeptSubsequence(init, gone);
      assert (Kept(init, gone) + [last])[..|Kept(init, gone)|] == Kept(init, gone);
    }
  }

  lemma {:induction false} KeptAndTaken(q: seq<List>, gone: set<nat>)
    ensures multiset(Kept(q, gone)) + multiset(Taken(q, gone)) == multiset(q)
    ensures Taken(q, gone) == [] ==> Kept(q, gone) == q
  {
    if q != [] {
      assert q == q[..|q| - 1] + [q[|q| - 1]];
      KeptAndTaken(q[..|q| - 1], gone);
    }
  }

  lemma AcceptKeepsOrdered(s: State, lists: seq<List>)
    requires Ordered(s)
    ensures Ordered(s.(queue := s.queue + lists, accepted := s.accepted + lists))
  {
    var r := s.(queue := s.queue + lists, accepted := s.accepted + lists);
    SubsequenceAppend(InSystem(s), s.accepted, lists);
    assert InSystem(r) == InSystem(s) + lists;
  }

  lemma CancelKeepsOrdered(s: State, gone: set<nat>)
    requires Ordered(s)
    ensures Ordered(s.(queue := Kept(s.queue, gone), cancelled := s.cancelled + Taken(s.queue, gone)))
  {
    var front := s.processed + s.sending;
    KeptSubsequence(s.queue, gone);
    KeptAndTaken(s.queue, gone);
    SubsequencePrepend(front, Kept(s.queue, gone), s.queue);
    SubsequenceTrans(front + Kept(s.queue, gone), InSystem(s), s.accepted);
  }

  // Dequeueing moves the first list along.
  lemma TopMovesAlong(s: State, t: nat)
    requires t < |s.threads| && s.threads[t].InTop?
    ensures var r := GoStep(s, t);
            InSystem(r) == InSystem(s) && r.accepted == s.accepted && r.cancelled == s.cancelled
  {
    if GoStep(s, t).sending != s.sending { assert s.queue == [s.queue[0]] + s.queue[1..]; }
  }

  // Completing or putting back moves it on or back.
  lemma BackMovesAlong(s: State, t: nat)
    requires t < |s.threads| && s.threads[t].InBack?
    ensures var r := GoStep(s, t);
            InSystem(r) == InSystem(s) && r.accepted == s.accepted && r.cancelled == s.cancelled
  {
    if s.threads[t].ok {
      assert s.processed + s.sending + [] + s.queue == InSystem(s);
    } else {
      assert s.processed + [] + (s.sending + s.queue) == InSystem(s);
    }
  }

  // The other steps leave the lists where they are.
  lemma GoMovesAlong(s: State, t: nat)
    requires t < |s.threads| && !s.threads[t].InAccept? && !s.threads[t].InCancel?
    ensures var r := GoStep(s, t);
            InSystem(r) == InSystem(s) && r.accepted == s.accepted && r.cancelled == s.cancelled
  {
    match s.threads[t] {
      case InTop => TopMovesAlong(s, t);
      case InBack(_, _) => BackMovesAlong(s, t);
      case _ =>
    }
  }

  // Ordered does not look at the threads or the lock.
  lemma OrderedFrame(s: State, r: State)
    requires Ordered(s)
    requires InSystem(r) == InSystem(s) && r.accepted == s.accepted && r.cancelled == s.cancelled
    ensures Ordered(r)
  {
  }

  lemma GoKeepsOrdered(s: State, t: nat)
    requires t < |s.threads| && Ordered(s)
    ensures Ordered(GoStep(s, t))
  {
    match s.threads[t] {
      case InAccept(lists) => AcceptKeepsOrdered(s, lists);
      case InCancel(gone) => CancelKeepsOrdered(s, gone);
      case _ =>
        GoMovesAlong(s, t);
        OrderedFrame(s, GoStep(s, t));
    }
  }

  /** A thread that spins on its own lock lets nobody in again. */
  lemma StuckStays(s: State, t: nat)
    requires t < |s.threads| && Mutex(s) && Stuck(s)
    ensures GoStep(s, t) == s
  {
  }

  lemma GoKeepsOnlyOne(s: State, t: nat)
    requires t < |s.threads| && Mutex(s) && OneInFlight(s) && OnlyOne(s)
    ensures OnlyOne(GoStep(s, t))
  {
    if Stuck(s) { StuckStays(s, t); }
  }

  lemma GoKeeps(s: State, t: nat)
    requires Inv(s)
    ensures t < |s.threads| ==> Inv(GoStep(s, t))
  {
    if t < |s.threads| {
      GoKeepsMutex(s, t);
      GoKeepsOneInFlight(s, t);
      GoKeepsOrdered(s, t);
      GoKeepsOnlyOne(s, t);
    }
  }

  lemma NextKeeps(s: State, m: Move)
    requires Inv(s)
    ensures Inv(Next(s, m))
  {
    match m {
      case Go(t) => GoKeeps(s, t);
      case Send(t, lists) =>
        if t < |s.threads| && s.threads[t] == Outside { MovedKeeps(s, t, WantAccept(lists)); }
      case Cancel(t, gone) =>
        if t < |s.threads| && s.threads[t] == Outside { MovedKeeps(s, t, WantCancel(gone)); }
      case Finish(t, ok) =>
        if t < |s.threads| && s.threads[t].Processing? { MovedKeeps(s, t, WantBack(s.threads[t].nbl, ok)); }
      case SetReady(ready) => OrderedFrame(s, s.(ready := ready));
    }
  }

  // Steps of one thread outside its critical sections, where it also stays.
  predicate Moved(from: Pc, to: Pc) {
    || (from == Outside && (to.WantAccept? || to.WantCancel?))
    || (from.Processing? && to.WantBack? && to.nbl == from.nbl)
  }

  lemma MovedKeepsMutex(s: State, t: nat, pc: Pc)
    requires t < |s.threads| && Moved(s.threads[t], pc) && Mutex(s)
    ensures Mutex(At(s, t, pc))
  {
  }

  lemma MovedKeepsOneInFlight(s: State, t: nat, pc: Pc)
    requires t < |s.threads| && Moved(s.threads[t], pc) && OneInFlight(s)
    ensures OneInFlight(At(s, t, pc))
  {
    var r := At(s, t, pc);
    forall i | 0 <= i < |r.threads| && InFlight(r.threads[i])
      ensures InFlight(s.threads[i]) && r.sending == [r.threads[i].nbl]
    {
    }
  }

  lemma MovedKeepsOnlyOne(s: State, t: nat, pc: Pc)
    requires t < |s.threads| && Moved(s.threads[t], pc) && Mutex(s) && OnlyOne(s)
    ensures OnlyOne(At(s, t, pc))
  {
  }

  lemma MovedKeeps(s: State, t: nat, pc: Pc)
    requires t < |s.threads| && Moved(s.threads[t], pc) && Inv(s)
    ensures Inv(At(s, t, pc))
  {
    MovedKeepsMutex(s, t, pc);
    MovedKeepsOneInFlight(s, t, pc);
    MovedKeepsOnlyOne(s, t, pc);
    OrderedFrame(s, At(s, t, pc));
  }

  lemma RunInv(n: nat, unlocks: bool, ms: seq<Move>)
    ensures Inv(Run(Next, Init(n, unlocks), ms))
  {
    forall s, m | Inv(s)
      ensures Inv(Next(s, m))
    {
      NextKeeps(s, m);
    }
    RunKeeps(Next, Inv, Init(n, unlocks), ms);
  }

  // -------- what every run guarantees --------

  /** Lists are sent in the order received: with any number of threads and any outcomes, what
      was processed, is in flight and is queued is a subsequence of what was accepted, the
      whole of it when nothing was cancelled, and every accepted list is in exactly one of
      these places or cancelled. */
  lemma SentInOrder(n: nat, unlocks: bool, ms: seq<Move>)
    ensures var s := Run(Next, Init(n, unlocks), ms);
            && Subsequence(s.processed + s.sending + s.queue, s.accepted)
            && multiset(s.processed + s.sending + s.queue) + multiset(s.cancelled) == multiset(s.accepted)
            && (s.cancelled == [] ==> s.processed + s.sending + s.queue == s.accepted)
  {
    RunInv(n, unlocks, ms);
  }

  /** Only one thread at a time processes a list, and it is the one sendingNBL names; so a
      failed list is never confused with another one or with NULL when it is put back. */
  lemma OneAtATime(n: nat, unlocks: bool, ms: seq<Move>, i: nat)
    ensures var s := Run(Next, Init(n, unlocks), ms);
            && |s.sending| <= 1
            && (i < |s.threads| && InFlight(s.threads[i]) ==>
                  && s.sending == [s.threads[i].nbl]
                  && forall j | 0 <= j < |s.threads| && j != i :: !InFlight(s.threads[j]))
  {
    RunInv(n, unlocks, ms);
  }

  lemma RunKeepsUnlocks(n: nat, unlocks: bool, ms: seq<Move>)
    ensures Run(Next, Init(n, unlocks), ms).unlocks == unlocks
  {
    var inv := (s: State) => s.unlocks == unlocks;
    RunKeeps(Next, inv, Init(n, unlocks), ms);
  }

  /** The loop as written takes sendLock again without having released it after a success:
      at most one list is ever processed, and the lock is stuck from the moment one is, and
      not before. */
  lemma AtMostOneProcessed(n: nat, ms: seq<Move>)
    ensures var s := Run(Next, Init(n, false), ms);
            |s.processed| <= 1 && Mutex(s) && (s.processed != [] <==> Stuck(s))
  {
    RunInv(n, false, ms);
    RunKeepsUnlocks(n, false, ms);
  }

  // One list accepted by an idle adapter.
  lemma AcceptOne(n: nat, unlocks: bool, l: List) returns (s: State)
    requires n > 0
    ensures Reaches(Next, Init(n, unlocks), s)
    ensures s == At(Init(n, unlocks), 0, WantTop).(queue := [l], accepted := [l])
  {
    var s0 := Init(n, unlocks);
    ReachesSelf<State, Move>(Next, s0);
    s := After(Next, s0, s0, Send(0, [l]));
    s := After(Next, s0, s, Go(0));
    s := After(Next, s0, s, Go(0));
  }

  // The loop takes it and processes it successfully.
  lemma GetsStuck(n: nat, l: List) returns (s: State)
    requires n > 0
    ensures Reaches(Next, Init(n, false), s) && Stuck(s) && s.processed == [l]
  {
    var s0 := Init(n, false);
    s := AcceptOne(n, false, l);
    s := After(Next, s0, s, Go(0));
    s := After(Next, s0, s, Go(0));
    s := After(Next, s0, s, Finish(0, true));
    s := After(Next, s0, s, Go(0));
    s := After(Next, s0, s, Go(0));
  }

  /** The lock can get stuck exactly when there is a thread to send and the loop keeps the
      lock after a success. */
  lemma StuckExactlyIfLockKept(n: nat, unlocks: bool)
    ensures (exists s :: Reaches(Next, Init(n, unlocks), s) && Stuck(s)) <==> n > 0 && !unlocks
  {
    if n > 0 && !unlocks {
      var s := GetsStuck(n, 0);
    } else {
      forall s | Reaches(Next, Init(n, unlocks), s)
        ensures !Stuck(s)
      {
        var ms :| s == Run(Next, Init(n, unlocks), ms);
        RunInv(n, unlocks, ms);
        RunKeepsUnlocks(n, unlocks, ms);
        RunKeepsThreads(n, unlocks, ms);
      }
    }
  }

  lemma RunKeepsThreads(n: nat, unlocks: bool, ms: seq<Move>)
    ensures |Run(Next, Init(n, unlocks), ms).threads| == n
  {
    var inv := (s: State) => |s.threads| == n;
    RunKeeps(Next, inv, Init(n, unlocks), ms);
  }

  // -------- an adapter that is not ready --------

  // Nothing new was accepted or taken for processing since s.
  ghost predicate NothingNew(s: State, r: State) {
    && !r.ready && r.accepted == s.accepted
    && r.processed + r.sending <= s.processed + s.sending
    && |r.threads| == |s.threads|
    && forall i | 0 <= i < |s.threads| :: r.threads[i].Processing? ==> r.threads[i] == s.threads[i]
  }

  // A step takes no list for processing, and accepts none.
  lemma NotReadyGo(s: State, t: nat)
    requires t < |s.threads| && !s.ready
    ensures var r := GoStep(s, t);
            && !r.ready && r.accepted == s.accepted && r.processed + r.sending <= s.processed + s.sending
            && (r.threads[t].Processing? ==> r.threads[t] == s.threads[t])
  {
    if s.threads[t].InBack? { assert s.processed + s.sending + [] == s.processed + s.sending; }
  }

  lemma NotReadyStep(s: State, r: State, m: Move)
    requires NothingNew(s, r) && m != SetReady(true)
    ensures NothingNew(s, Next(r, m))
  {
    match m {
      case Go(t) => if t < |r.threads| { NotReadyGo(r, t); }
      case _ =>
    }
  }

  lemma {:induction false} NotReadyRun(s: State, r: State, ms: seq<Move>)
    requires NothingNew(s, r) && SetReady(true) !in ms
    ensures NothingNew(s, Run(Next, r, ms))
    decreases |ms|
  {
    if ms != [] {
      assert ms[0] in ms;
      NotReadyStep(s, r, ms[0]);
      NotReadyRun(s, Next(r, ms[0]), ms[1..]);
    }
  }

  /** While the adapter is not ready, whatever the threads do: no list is accepted, and none is
      taken off the queue; only the list already in flight can still be processed. */
  lemma NotReadyTakesNothing(s: State, ms: seq<Move>)
    requires !s.ready && SetReady(true) !in ms
    ensures var r := Run(Next, s, ms);
            && r.accepted == s.accepted && r.processed + r.sending <= s.processed + s.sending
            && |r.threads| == |s.threads|
            && forall i | 0 <= i < |s.threads| :: r.threads[i].Processing? ==> r.threads[i] == s.threads[i]
  {
    NotReadyRun(s, s, ms);
  }

  /** A thread with lists to send queues them and goes on to the loop exactly if the adapter is
      ready; otherwise it leaves, and the lists and the lock with it. */
  lemma AcceptsExactlyIfReady(s: State, t: nat)
    requires t < |s.threads| && s.threads[t].InAccept?
    ensures var r := GoStep(s, t);
            && r.lock == Free
            && (s.ready ==> r.threads[t] == WantTop && r.queue == s.queue + s.threads[t].lists
                            && r.accepted == s.accepted + s.threads[t].lists)
            && (!s.ready ==> r.threads[t] == Outside && r.queue == s.queue && r.accepted == s.accepted)
  {
  }

  /** The loop takes the first list exactly if none is in flight, one is queued, and the adapter
      is ready. */
  lemma TakesExactlyIfReady(s: State, t: nat)
    requires t < |s.threads| && s.threads[t].InTop?
    ensures var r := GoStep(s, t);
            && r.lock == Free
            && (if s.sending == [] && s.queue != [] && s.ready then
                  r.threads[t] == Processing(s.queue[0]) && r.sending + r.queue == s.queue && |r.sending| == 1
                else r.threads[t] == Outside && r.sending == s.sending && r.queue == s.queue)
  {
    if s.queue != [] { assert s.queue == [s.queue[0]] + s.queue[1..]; }
  }

  /** A cancel takes out exactly the lists at the places it names. */
  lemma {:induction false} TakenExactly(q: seq<List>, gone: set<nat>, x: List)
    ensures x in Taken(q, gone) <==> exists i :: 0 <= i < |q| && i in gone && q[i] == x
    ensures x in Kept(q, gone) <==> exists i :: 0 <= i < |q| && i !in gone && q[i] == x
  {
    if q != [] {
      var init := q[..|q| - 1];
      TakenExactly(init, gone, x);
      assert forall i | 0 <= i < |init| :: init[i] == q[i];
    }
  }

  // What a stuck lock keeps for good.
  ghost predicate FrozenAs(s: State, r: State) {
    && Mutex(r) && Stuck(r) && r.lock == s.lock && r.queue == s.queue && r.sending == s.sending
    && r.accepted == s.accepted && r.processed == s.processed && r.cancelled == s.cancelled
  }

  lemma FrozenStep(s: State, r: State, m: Move)
    requires FrozenAs(s, r)
    ensures FrozenAs(s, Next(r, m))
  {
    match m {
      case Go(t) => if t < |r.threads| { StuckStays(r, t); }
      case _ =>
    }
  }

  /** From then on nothing is accepted, dequeued, processed or cancelled any more. */
  lemma StuckForever(s: State, ms: seq<Move>)
    requires Mutex(s) && Stuck(s)
    ensures FrozenAs(s, Run(Next, s, ms))
  {
    var inv := (r: State) => FrozenAs(s, r);
    forall r, m | inv(r)
      ensures inv(Next(r, m))
    {
      FrozenStep(s, r, m);
    }
    RunKeeps(Next, inv, s, ms);
  }

  // One list through a loop that releases the lock.
  lemma ProcessOne(s0: State, s: State, t: nat) returns (r: State)
    requires Reaches(Next, s0, s) && s.unlocks && s.ready && s.lock == Free && s.sending == [] && s.queue != []
    requires t < |s.threads| && s.threads[t] == WantTop
    ensures Reaches(Next, s0, r)
    ensures r == s.(queue := s.queue[1..], processed := s.processed + [s.queue[0]])
  {
    r := After(Next, s0, s, Go(t));
    r := After(Next, s0, r, Go(t));
    r := After(Next, s0, r, Finish(t, true));
    r := After(Next, s0, r, Go(t));
    r := After(Next, s0, r, Go(t));
    assert r.threads == s.threads;
  }

  /** With the lock released after a success, a thread alone can send the whole queue. */
  lemma {:induction false} ReleasingLoopSendsAll(s0: State, s: State, t: nat) returns (r: State)
    requires Reaches(Next, s0, s) && s.unlocks && s.ready && s.lock == Free && s.sending == []
    requires t < |s.threads| && s.threads[t] == WantTop
    ensures Reaches(Next, s0, r) && r.queue == [] && r.processed == s.processed + s.queue
    decreases |s.queue|
  {
    r := s;
    if s.queue != [] {
      r := ProcessOne(s0, s, t);
      assert s.processed + [s.queue[0]] + s.queue[1..] == s.processed + s.queue;
      r := ReleasingLoopSendsAll(s0, r, t);
    }
  }
}
