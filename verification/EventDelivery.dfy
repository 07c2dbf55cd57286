/** When is every pushed event delivered?  A DPC script never strands an event exactly when
    it calls ShmSignalEoi at some point after a ShmSignalEnable. */
module EventDelivery {
  import opened Ring
  import opened Runs
  import R = RingProtocol
  import S = SignalProtocol
  import opened EventPath

  ghost predicate Reachable(s: State) {
    exists n: nat, script: seq<DpcOp> :: n > 0 && Reaches(Next, Init(n, script), s)
  }

  lemma NextKeeps(s: State, m: Move)
    requires Inv(s)
    ensures Inv(Next(s, m))
  {
    match m {
      case SouthMove(e) => SouthKeeps(s, e);
      case DpcMove => DpcKeeps(s);
      case IsrMove => IsrKeeps(s);
    }
  }

  lemma InitInv(n: nat, script: seq<DpcOp>)
    requires n > 0
    ensures Inv(Init(n, script))
  {
    R.InitInv(n, South);
  }

  lemma ReachesInv(n: nat, script: seq<DpcOp>, s: State)
    requires n > 0 && Reaches(Next, Init(n, script), s)
    ensures Inv(s)
  {
    var ms :| s == Run(Next, Init(n, script), ms);
    forall s, m | Inv(s)
      ensures Inv(Next(s, m))
    {
      NextKeeps(s, m);
    }
    InitInv(n, script);
    RunKeeps(Next, Inv, Init(n, script), ms);
  }

  /** No operation in progress, no interrupt outstanding, no DPC requested. */
  predicate Quiescent(s: State) {
    && s.ring.ppc == R.PushIdle && !s.owes && s.sig.ipc == S.InjectIdle
    && s.sig.posted == 0 && s.sig.isr == S.IsrIdle
    && !s.sig.queued && !s.running && s.sig.lpc == S.LocalIdle
  }

  predicate Delivered(s: State) {
    s.ring.dispatched == s.ring.pushed
  }

  /** Whatever the DPC script: a quiescent event queue with notifications enabled and no Eoi
      owed has dispatched every event South pushed, in order and unaltered. */
  lemma NothingStrandedUnlessEoiOwed(s: State)
    requires Reachable(s) && Quiescent(s) && s.sig.enabled && !s.sig.pending
    ensures Delivered(s)
  {
    var n: nat, script :| n > 0 && Reaches(Next, Init(n, script), s);
    ReachesInv(n, script, s);
    QuietRing(s);
  }

  lemma QuietRing(s: State)
    requires Inv(s) && Quiescent(s) && s.sig.enabled && !s.sig.pending
    ensures Delivered(s)
  {
    assert s.ring.popped == |s.ring.pushed|;
    assert s.ring.dispatched == s.ring.pushed[..|s.ring.pushed|];
  }

  /** Safety in every state of every run, whatever the DPC script: what was dispatched is a
      prefix of what South pushed. */
  lemma DispatchedInOrder(s: State)
    requires Reachable(s)
    ensures s.ring.dispatched <= s.ring.pushed
  {
    var n: nat, script :| n > 0 && Reaches(Next, Init(n, script), s);
    ReachesInv(n, script, s);
  }

  ghost predicate NoEoi(s: State, script: seq<DpcOp>) {
    Inv(s) && s.script == script && s.sig.eois == 0
  }

  lemma NextWithoutEoi(s: State, m: Move)
    requires DpcEoi !in s.script
    ensures Next(s, m).script == s.script && Next(s, m).sig.eois == s.sig.eois
  {
  }

  lemma NextKeepsNoEoi(s: State, m: Move, script: seq<DpcOp>)
    requires NoEoi(s, script) && DpcEoi !in script
    ensures NoEoi(Next(s, m), script)
  {
    NextKeeps(s, m);
    NextWithoutEoi(s, m);
  }

  /** A DPC that never acknowledges is interrupted at most once, ever. */
  lemma NoEoiOneInterrupt(n: nat, script: seq<DpcOp>, ms: seq<Move>)
    requires n > 0 && DpcEoi !in script
    ensures Run(Next, Init(n, script), ms).sig.injects <= 1
  {
    var inv := (s: State) => NoEoi(s, script);
    forall s, m | inv(s)
      ensures inv(Next(s, m))
    {
      NextKeepsNoEoi(s, m, script);
    }
    InitInv(n, script);
    RunKeeps(Next, inv, Init(n, script), ms);
  }

  // -------- scripts that deliver --------

  predicate EnableThenEoi(script: seq<DpcOp>, i: nat, j: nat) {
    i < j < |script| && script[i] == DpcEnable && script[j] == DpcEoi
  }

  predicate EoiFollowsEnable(script: seq<DpcOp>) {
    exists i, j :: 0 <= i < j < |script| && EnableThenEoi(script, i, j)
  }

  /** A masked signal will be unmasked, and a pending one will be acknowledged, by a DPC
      that is requested, about to be requested, or not past the call in question. */
  predicate Live(s: State, i: nat, j: nat) {
    && (!s.sig.enabled ==> s.sig.queued || s.sig.isr == S.IsrQueue || (s.running && s.at <= i))
    && (s.sig.pending ==>
          || s.sig.ipc == S.Inject || s.sig.posted > 0 || s.sig.isr != S.IsrIdle
          || s.sig.queued || (s.running && s.at <= j))
  }

  lemma DpcKeepsLive(s: State, i: nat, j: nat)
    requires R.Shape(s.ring) && Contexts(s) && EnableThenEoi(s.script, i, j) && Live(s, i, j)
    ensures Live(DpcStep(s), i, j) && DpcStep(s).script == s.script
  {
  }

  lemma SouthKeepsLive(s: State, e: R.Event, i: nat, j: nat)
    requires R.Shape(s.ring) && Live(s, i, j)
    ensures Live(SouthStep(s, e), i, j) && SouthStep(s, e).script == s.script
  {
  }

  /** An interrupt the routine discards finds the signal masked, so a DPC whose Eoi is
      still to come is on its way. */
  lemma IsrKeepsLive(s: State, i: nat, j: nat)
    requires i < j && Live(s, i, j)
    ensures Live(IsrStep(s), i, j) && IsrStep(s).script == s.script
  {
  }

  ghost predicate LiveInv(s: State, script: seq<DpcOp>, i: nat, j: nat) {
    Inv(s) && Live(s, i, j) && s.script == script
  }

  lemma NextKeepsLive(s: State, m: Move, script: seq<DpcOp>, i: nat, j: nat)
    requires LiveInv(s, script, i, j) && EnableThenEoi(script, i, j)
    ensures LiveInv(Next(s, m), script, i, j)
  {
    NextKeeps(s, m);
    match m {
      case SouthMove(e) => SouthKeepsLive(s, e, i, j);
      case DpcMove => DpcKeepsLive(s, i, j);
      case IsrMove => IsrKeepsLive(s, i, j);
    }
  }

  lemma RunLive(n: nat, script: seq<DpcOp>, i: nat, j: nat, ms: seq<Move>)
    requires n > 0 && EnableThenEoi(script, i, j)
    ensures LiveInv(Run(Next, Init(n, script), ms), script, i, j)
  {
    var inv := (s: State) => LiveInv(s, script, i, j);
    forall s, m | inv(s)
      ensures inv(Next(s, m))
    {
      NextKeepsLive(s, m, script, i, j);
    }
    InitInv(n, script);
    RunKeeps(Next, inv, Init(n, script), ms);
  }

  /** For every ring size and every interleaving, a queue that has come to rest has
      delivered everything. */
  ghost predicate NeverStrands(script: seq<DpcOp>) {
    forall n: nat, ms: seq<Move> | n > 0 ::
      var s := Run(Next, Init(n, script), ms); Quiescent(s) ==> Delivered(s)
  }

  /** With an Eoi after an Enable, a quiescent queue is unmasked, owes no Eoi and is empty. */
  lemma EoiAfterEnableDelivers(n: nat, script: seq<DpcOp>, ms: seq<Move>)
    requires n > 0 && EoiFollowsEnable(script)
    ensures var s := Run(Next, Init(n, script), ms);
            Quiescent(s) ==> s.sig.enabled && !s.sig.pending && Delivered(s)
  {
    var i: nat, j: nat :| EnableThenEoi(script, i, j);
    RunLive(n, script, i, j, ms);
    var s := Run(Next, Init(n, script), ms);
    if Quiescent(s) {
      QuietRing(s);
    }
  }

  // -------- scripts that strand --------

  lemma SouthMoves(s0: State, s: State, e: R.Event) returns (t: State)
    requires Reaches(Next, s0, s) && Inv(s)
    ensures Reaches(Next, s0, t) && Inv(t) && t == SouthStep(s, e)
  {
    t := After(Next, s0, s, SouthMove(e));
    SouthKeeps(s, e);
  }

  lemma IsrMoves(s0: State, s: State) returns (t: State)
    requires Reaches(Next, s0, s) && Inv(s)
    ensures Reaches(Next, s0, t) && Inv(t) && t == IsrStep(s)
  {
    t := After(Next, s0, s, IsrMove);
    IsrKeeps(s);
  }

  lemma DpcMoves(s0: State, s: State) returns (t: State)
    requires Reaches(Next, s0, s) && Inv(s)
    ensures Reaches(Next, s0, t) && Inv(t) && t == DpcStep(s)
  {
    t := After(Next, s0, s, DpcMove);
    DpcKeeps(s);
  }

  function PushRank(pc: R.PushPc): nat {
    match pc
    case PushIdle => 0
    case PushFailed => 0
    case PushSeek => 1
    case PushFlip => 2
    case StoreTail => 3
    case SetFull => 4
    case TestHead => 5
    case PushGuardOwner => 6
    case PushGuardTail => 7
    case Fill => 8
  }

  // What a push leaves alone.
  predicate PushFrame(s: State, t: State) {
    && t.ring.n == s.ring.n && t.ring.popped == s.ring.popped && t.ring.dispatched == s.ring.dispatched
    && t.sig == s.sig.(changes := t.sig.changes) && t.script == s.script && t.running == s.running && t.at == s.at
  }

  lemma PushMoves(s: State)
    requires R.Shape(s.ring) && R.Counters(s.ring)
    requires s.ring.ppc != R.PushIdle && !s.owes && s.sig.ipc == S.InjectIdle
    ensures var t := SouthStep(s, s.ring.pev);
            && PushFrame(s, t) && t.sig.ipc == S.InjectIdle && t.ring.pev == s.ring.pev
            && (t.ring.ppc == R.PushFailed || PushRank(t.ring.ppc) < PushRank(s.ring.ppc))
            && t.owes == (t.ring.ppc == R.PushIdle)
            && t.ring.pushed + (if R.Pushing(t.ring.ppc) then [t.ring.pev] else []) ==
               s.ring.pushed + if R.Pushing(s.ring.ppc) && t.ring.ppc != R.PushFailed then [s.ring.pev] else []
  {
  }

  /** South completes the push it is in, everyone else standing still. */
  lemma {:induction false} FinishPush(s0: State, s: State) returns (t: State)
    requires Reaches(Next, s0, s) && Inv(s) && s.ring.ppc != R.PushIdle && !s.owes && s.sig.ipc == S.InjectIdle
    ensures Reaches(Next, s0, t) && Inv(t) && t.ring.ppc == R.PushIdle && t.owes && PushFrame(s, t)
    ensures t.ring.pushed == s.ring.pushed + if R.Pushing(s.ring.ppc) then [s.ring.pev] else []
    decreases PushRank(s.ring.ppc)
  {
    t := SouthMoves(s0, s, s.ring.pev);
    PushMoves(s);
    if t.ring.ppc != R.PushIdle {
      t := FinishPush(s0, t);
    }
  }

  lemma SouthPushes(s0: State, s: State, e: R.Event) returns (t: State)
    requires Reaches(Next, s0, s) && Inv(s) && s.ring.ppc == R.PushIdle && !s.owes && s.sig.ipc == S.InjectIdle
    requires |s.ring.pushed| < s.ring.popped + s.ring.n
    ensures Reaches(Next, s0, t) && Inv(t) && t.ring.ppc == R.PushIdle && t.owes
    ensures t.ring.pushed == s.ring.pushed + [e]
    ensures PushFrame(s, t)
  {
    R.PusherSeesRoom(s.ring);
    t := SouthMoves(s0, s, e);
    t := FinishPush(s0, t);
  }

  /** South's Inject up to its test of pending. */
  lemma SouthAnnounces(s0: State, s: State, e: R.Event) returns (t: State)
    requires Reaches(Next, s0, s) && Inv(s) && s.owes && s.sig.enabled
    ensures Reaches(Next, s0, t) && Inv(t)
    ensures t == s.(owes := false, sig := s.sig.(dirty := true, announced := s.sig.changes, ipc := S.TestPending))
  {
    t := SouthMoves(s0, s, e);
    t := SouthMoves(s0, t, e);
  }

  // South's Inject from its store of pending on.
  lemma SouthPosts(s0: State, s: State, e: R.Event) returns (t: State)
    requires Reaches(Next, s0, s) && Inv(s) && s.sig.ipc == S.SetPending
    ensures Reaches(Next, s0, t) && Inv(t)
    ensures t == s.(sig := s.sig.(ipc := S.InjectIdle, pending := true, posted := s.sig.posted + 1, injects := s.sig.injects + 1))
  {
    t := SouthMoves(s0, s, e);
    t := SouthMoves(s0, t, e);
  }

  /** The rest of South's Inject. */
  lemma SouthInjects(s0: State, s: State, e: R.Event) returns (t: State)
    requires Reaches(Next, s0, s) && Inv(s) && s.sig.ipc == S.TestPending
    ensures Reaches(Next, s0, t) && Inv(t) && t.sig.pending
    ensures t == s.(sig := t.sig)
    ensures t.sig == if s.sig.pending then s.sig.(ipc := S.InjectIdle)
                     else s.sig.(ipc := S.InjectIdle, pending := true, posted := s.sig.posted + 1, injects := s.sig.injects + 1)
  {
    t := SouthMoves(s0, s, e);
    if !s.sig.pending { t := SouthPosts(s0, t, e); }
  }

  /** The service routine takes an interrupt while masked, and discards it. */
  lemma IsrDiscards(s0: State, s: State) returns (t: State)
    requires Reaches(Next, s0, s) && Inv(s) && s.sig.isr == S.IsrIdle && s.sig.posted > 0 && !s.sig.enabled
    ensures Reaches(Next, s0, t) && Inv(t)
    ensures t == s.(sig := s.sig.(posted := s.sig.posted - 1))
  {
    t := IsrMoves(s0, s);
    t := IsrMoves(s0, t);
  }

  /** The service routine takes an interrupt, masks, and requests the DPC. */
  lemma IsrAccepts(s0: State, s: State) returns (t: State)
    requires Reaches(Next, s0, s) && Inv(s) && s.sig.isr == S.IsrIdle && s.sig.posted > 0 && s.sig.enabled
    ensures Reaches(Next, s0, t) && Inv(t)
    ensures t == s.(sig := s.sig.(posted := s.sig.posted - 1, enabled := false, queued := true))
  {
    t := IsrMoves(s0, s);
    t := IsrMoves(s0, t);
    t := IsrMoves(s0, t);
    t := IsrMoves(s0, t);
  }

  lemma DpcStarts(s0: State, s: State) returns (t: State)
    requires Reaches(Next, s0, s) && Inv(s) && s.sig.queued && !s.running
    ensures Reaches(Next, s0, t) && Inv(t)
    ensures t == s.(running := true, at := 0, sig := s.sig.(queued := false))
  {
    t := DpcMoves(s0, s);
  }

  /** While masked, a call reaches no notifier: it only may clear pending. */
  lemma MaskedCall(s0: State, s: State) returns (t: State)
    requires Reaches(Next, s0, s) && Inv(s) && s.running && s.sig.lpc == S.LocalIdle && !s.sig.enabled
    requires s.at < |s.script| && s.script[s.at] != DpcEnable
    ensures Reaches(Next, s0, t) && Inv(t)
    ensures t == s.(at := s.at + 1, sig := t.sig)
    ensures t.sig == s.sig.(pending := t.sig.pending, eois := t.sig.eois, eoisFound := t.sig.eoisFound)
  {
    t := DpcMoves(s0, s);
    t := DpcMoves(s0, t);
  }

  lemma {:induction false} MaskedCalls(s0: State, s: State, k: nat) returns (t: State)
    requires Reaches(Next, s0, s) && Inv(s) && s.running && s.sig.lpc == S.LocalIdle && !s.sig.enabled
    requires s.at <= k <= |s.script| && forall i | s.at <= i < k :: s.script[i] != DpcEnable
    ensures Reaches(Next, s0, t) && Inv(t)
    ensures t == s.(at := k, sig := t.sig)
    ensures t.sig == s.sig.(pending := t.sig.pending, eois := t.sig.eois, eoisFound := t.sig.eoisFound)
    decreases k - s.at
  {
    t := s;
    if s.at < k {
      t := MaskedCall(s0, s);
      t := MaskedCalls(s0, t, k);
    }
  }

  function CallRank(pc: S.LocalPc): nat {
    match pc
    case LocalIdle => 0
    case Notified => 1
    case Notify => 2
    case ClearDirty => 3
    case WakePending => 4
    case WakeDirty => 5
    case WakeEnabled => 6
  }

  function PopRank(pc: R.PopPc): nat {
    match pc
    case PopIdle => 0
    case PopFailed => 0
    case PopFlip => 1
    case ClearFull => 2
    case TestFull => 3
    case StoreHead => 4
    case PopGuardOwner => 5
    case PopGuardHead => 6
    case Zero => 7
    case Dispatch => 8
    case LoopTest => 9
    case PopSeek => 10
  }

  // A notifier call is due or in its loop.
  predicate Draining(s: State) {
    s.sig.lpc == S.Notify || (s.sig.lpc == S.Notified && s.ring.cpc != R.PopIdle)
  }

  /** All that a running call of the DPC may change. */
  predicate CallFrame(s: State, t: State) {
    && t.running == s.running && t.owes == s.owes && t.script == s.script && t.at == s.at
    && t.ring.pushed == s.ring.pushed && t.ring.ppc == s.ring.ppc && t.ring.n == s.ring.n
    && s.ring.popped <= t.ring.popped
    && t.sig == s.sig.(lpc := t.sig.lpc, dirty := t.sig.dirty, covered := t.sig.covered)
  }

  // The measure of a running call: its own steps, the events left, the steps of a pop.
  predicate CallShrinks(s: State, t: State) {
    || CallRank(t.sig.lpc) < CallRank(s.sig.lpc)
    || (t.sig.lpc == s.sig.lpc
        && (t.ring.popped > s.ring.popped || PopRank(t.ring.cpc) < PopRank(s.ring.cpc)))
  }

  lemma CallStepFrame(s: State)
    requires R.Shape(s.ring) && Contexts(s) && s.sig.lpc != S.LocalIdle
    ensures CallFrame(s, DpcStep(s))
  {
  }

  lemma CallStepShrinks(s: State)
    requires R.Shape(s.ring) && R.Counters(s.ring) && Contexts(s) && s.sig.lpc != S.LocalIdle
    ensures CallShrinks(s, DpcStep(s))
  {
  }

  lemma DrainStep(s: State)
    requires Inv(s) && s.running && Draining(s)
    ensures var t := DpcStep(s); Draining(t) || t.ring.popped == |t.ring.pushed|
  {
    R.PopperSeesWork(s.ring);
  }

  /** The DPC completes the call it is in, everyone else standing still.  The measure shows
      that the drain loop ends: every pass pops one of the events pushed so far. */
  lemma {:induction false} FinishCall(s0: State, s: State) returns (t: State)
    requires Reaches(Next, s0, s) && Inv(s) && s.running
    ensures Reaches(Next, s0, t) && Inv(t) && t.sig.lpc == S.LocalIdle && CallFrame(s, t)
    ensures Draining(s) ==> t.ring.popped == |t.ring.pushed|
    decreases CallRank(s.sig.lpc), |s.ring.pushed| - s.ring.popped, PopRank(s.ring.cpc)
  {
    if s.sig.lpc == S.LocalIdle {
      t := s;
    } else {
      var u := DpcMoves(s0, s);
      CallStepFrame(s);
      CallStepShrinks(s);
      if Draining(s) { DrainStep(s); }
      t := FinishCall(s0, u);
    }
  }

  /** A call other than Eoi, from its start to its end. */
  lemma NoEoiCall(s0: State, s: State) returns (t: State)
    requires Reaches(Next, s0, s) && Inv(s) && s.running && s.sig.lpc == S.LocalIdle
    requires s.at < |s.script| && s.script[s.at] != DpcEoi
    ensures Reaches(Next, s0, t) && Inv(t) && t.sig.lpc == S.LocalIdle
    ensures CallFrame(s.(at := s.at + 1, sig := s.sig.(enabled := s.sig.enabled || s.script[s.at] == DpcEnable)), t)
  {
    var u := DpcMoves(s0, s);
    t := FinishCall(s0, u);
  }

  /** The rest of a script without an Eoi. */
  lemma {:induction false} NoEoiCalls(s0: State, s: State) returns (t: State)
    requires Reaches(Next, s0, s) && Inv(s) && s.running && s.sig.lpc == S.LocalIdle
    requires forall i | s.at <= i < |s.script| :: s.script[i] != DpcEoi
    requires s.sig.enabled || (s.at < |s.script| && s.script[s.at] == DpcEnable)
    ensures Reaches(Next, s0, t) && Inv(t) && t.sig.lpc == S.LocalIdle
    ensures CallFrame(s.(at := |s.script|, sig := s.sig.(enabled := true)), t)
    decreases |s.script| - s.at
  {
    if s.at == |s.script| {
      t := s;
    } else {
      var u := NoEoiCall(s0, s);
      t := NoEoiCalls(s0, u);
    }
  }

  lemma DpcEnds(s0: State, s: State) returns (t: State)
    requires Reaches(Next, s0, s) && Inv(s) && s.running && s.sig.lpc == S.LocalIdle && s.at == |s.script|
    ensures Reaches(Next, s0, t) && Inv(t)
    ensures t == s.(running := false)
  {
    t := DpcMoves(s0, s);
  }

  // A push and its signal from rest: the interrupt is posted.
  lemma FirstPush(n: nat, script: seq<DpcOp>, e: R.Event) returns (t: State)
    requires n > 0
    ensures Reaches(Next, Init(n, script), t) && Inv(t)
    ensures t.ring.n == n && |t.ring.pushed| == 1 && t.ring.popped == 0 && t.ring.dispatched == []
    ensures t.ring.ppc == R.PushIdle && !t.owes && t.script == script && !t.running
    ensures t.sig.ipc == S.InjectIdle && t.sig.lpc == S.LocalIdle && t.sig.isr == S.IsrIdle
    ensures t.sig.enabled && t.sig.pending && t.sig.posted == 1 && !t.sig.queued
  {
    var s0 := Init(n, script);
    InitInv(n, script);
    ReachesSelf<State, Move>(Next, s0);
    t := SouthPushes(s0, s0, e);
    t := SouthAnnounces(s0, t, e);
    t := SouthInjects(s0, t, e);
  }

  /** A DPC that never unmasks strands the very first event. */
  lemma StrandedMasked(script: seq<DpcOp>, e: R.Event) returns (t: State)
    requires DpcEnable !in script
    ensures Reaches(Next, Init(1, script), t) && Quiescent(t) && !Delivered(t)
  {
    var s0 := Init(1, script);
    t := FirstPush(1, script, e);
    t := IsrAccepts(s0, t);
    t := DpcStarts(s0, t);
    t := MaskedCalls(s0, t, |script|);
    t := DpcEnds(s0, t);
  }

  // South is held between its two tests while the routine masks and the DPC runs up to its
  // first Enable at f; then South sets pending, and its interrupt is discarded.
  lemma RaceToEnable(script: seq<DpcOp>, f: nat, e: R.Event) returns (t: State)
    requires f < |script| && forall i | 0 <= i < f :: script[i] != DpcEnable
    ensures Reaches(Next, Init(3, script), t) && Inv(t)
    ensures t.ring.n == 3 && |t.ring.pushed| == 2 && t.ring.ppc == R.PushIdle && !t.owes
    ensures t.script == script && t.running && t.at == f
    ensures t.sig.ipc == S.InjectIdle && t.sig.lpc == S.LocalIdle && t.sig.isr == S.IsrIdle
    ensures t.sig.pending && t.sig.posted == 0 && !t.sig.queued
  {
    var s0 := Init(3, script);
    t := FirstPush(3, script, e);
    t := SouthPushes(s0, t, e);
    t := SouthAnnounces(s0, t, e);
    t := IsrAccepts(s0, t);
    t := DpcStarts(s0, t);
    t := MaskedCalls(s0, t, f);
    t := SouthInjects(s0, t, e);
    if t.sig.posted == 1 {
      t := IsrDiscards(s0, t);
    }
  }

  // A push that finds an Eoi owed is announced to nobody.
  lemma SilentPush(s0: State, s: State, e: R.Event) returns (t: State)
    requires Reaches(Next, s0, s) && Inv(s) && Quiescent(s) && s.sig.enabled && s.sig.pending
    requires |s.ring.pushed| < s.ring.popped + s.ring.n
    ensures Reaches(Next, s0, t) && Inv(t) && Quiescent(t) && !Delivered(t)
  {
    t := SouthPushes(s0, s, e);
    assert |t.ring.dispatched| <= |s.ring.pushed|;
    t := SouthAnnounces(s0, t, e);
    t := SouthInjects(s0, t, e);
  }

  /** A DPC that unmasks without acknowledging afterwards strands a later event. */
  lemma StrandedPending(script: seq<DpcOp>, f: nat, e: R.Event) returns (t: State)
    requires f < |script| && script[f] == DpcEnable
    requires forall i | 0 <= i < f :: script[i] != DpcEnable
    requires forall i | f < i < |script| :: script[i] != DpcEoi
    ensures Reaches(Next, Init(3, script), t) && Quiescent(t) && !Delivered(t)
  {
    var s0 := Init(3, script);
    t := RaceToEnable(script, f, e);
    t := NoEoiCalls(s0, t);
    t := DpcEnds(s0, t);
    t := SilentPush(s0, t, e);
  }

  // The first Enable of a script that has one.
  lemma {:induction false} FirstEnable(script: seq<DpcOp>) returns (f: nat)
    requires DpcEnable in script
    ensures f < |script| && script[f] == DpcEnable && forall i | 0 <= i < f :: script[i] != DpcEnable
  {
    f := 0;
    if script[0] != DpcEnable {
      var g := FirstEnable(script[1..]);
      f := g + 1;
      forall i | 0 <= i < f
        ensures script[i] != DpcEnable
      {
        if i > 0 { assert script[1..][i - 1] == script[i]; }
      }
    }
  }

  /** The exact condition on the DPC: no interleaving of South, the service routine and the
      DPC ever strands an event, for any ring size, exactly when the DPC calls Eoi at some
      point after an Enable. */
  lemma DeliversExactlyWithEoiAfterEnable(script: seq<DpcOp>)
    ensures NeverStrands(script) <==> EoiFollowsEnable(script)
  {
    if EoiFollowsEnable(script) {
      forall n: nat, ms: seq<Move> | n > 0
        ensures var s := Run(Next, Init(n, script), ms); Quiescent(s) ==> Delivered(s)
      {
        EoiAfterEnableDelivers(n, script, ms);
      }
    } else {
      Strands(script);
    }
  }

  lemma Strands(script: seq<DpcOp>)
    requires !EoiFollowsEnable(script)
    ensures !NeverStrands(script)
  {
    var e := R.Event(0, 1);
    if DpcEnable in script {
      var f := FirstEnable(script);
      forall j | f < j < |script|
        ensures script[j] != DpcEoi
      {
        assert !EnableThenEoi(script, f, j);
      }
      var t := StrandedPending(script, f, e);
      var ms :| t == Run(Next, Init(3, script), ms);
    } else {
      var t := StrandedMasked(script, e);
      var ms :| t == Run(Next, Init(1, script), ms);
    }
  }

  /** The DPC as written never acknowledges, and Eoi before Enable is not enough either: an
      interrupt discarded in between leaves pending set for good. */
  lemma SourceDpcStrands()
    ensures SOURCE_DPC == [DpcWakeup, DpcEnable] && !NeverStrands(SOURCE_DPC)
    ensures !NeverStrands([DpcWakeup, DpcEoi, DpcEnable])
    ensures NeverStrands([DpcWakeup, DpcEnable, DpcEoi])
  {
    DeliversExactlyWithEoiAfterEnable(SOURCE_DPC);
    DeliversExactlyWithEoiAfterEnable([DpcWakeup, DpcEoi, DpcEnable]);
    DeliversExactlyWithEoiAfterEnable([DpcWakeup, DpcEnable, DpcEoi]);
    assert EnableThenEoi([DpcWakeup, DpcEnable, DpcEoi], 1, 2);
  }
}
