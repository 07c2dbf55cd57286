/** Total delivery: once South starts no new push, the contexts in progress can only make
    boundedly many moves, however they are scheduled; then everybody is at rest, and with an
    Eoi after an Enable every event South ever began to push was dispatched. */
module EventLiveness {
  import opened Ring
  import opened Runs
  import R = RingProtocol
  import S = SignalProtocol
  import opened EventPath
  import opened EventDelivery

  /** The context has something in progress; South in a push or its signal. */
  predicate Busy(s: State, m: Move) {
    match m
    case SouthMove(_) => s.ring.ppc != R.PushIdle || s.owes || s.sig.ipc != S.InjectIdle
    case DpcMove => s.running || s.sig.queued
    case IsrMove => s.sig.posted > 0 || s.sig.isr != S.IsrIdle
  }

  // A run of contexts with something in progress.
  predicate AllBusy(s: State, ms: seq<Move>)
    decreases |ms|
  {
    ms == [] || (Busy(s, ms[0]) && AllBusy(Next(s, ms[0]), ms[1..]))
  }

  /** Nobody has anything in progress exactly in the quiescent states. */
  lemma RestIsQuiescent(s: State)
    requires Inv(s)
    ensures Quiescent(s) <==> forall m :: !Busy(s, m)
  {
    if forall m :: !Busy(s, m) {
      assert !Busy(s, SouthMove(R.ZEROED)) && !Busy(s, DpcMove) && !Busy(s, IsrMove);
    }
  }

  // -------- the moves left --------

  // What one event costs the drain loop, and one call the DPC.
  const EVENT: nat := 12
  const CALL: nat := 61

  function Times(k: nat, cost: nat): nat {
    if k == 0 then 0 else cost + Times(k - 1, cost)
  }

  // A run of the DPC.
  function RunCost(script: seq<DpcOp>): nat {
    2 + Times(|script|, CALL)
  }

  // An interrupt costs the service routine, and then a run of the DPC.
  function PostCost(run: nat): nat {
    4 + run
  }

  function InjectRank(pc: S.InjectPc, run: nat): nat {
    match pc
    case InjectIdle => 0
    case Inject => 1 + PostCost(run)
    case SetPending => 2 + PostCost(run)
    case TestPending => 3 + PostCost(run)
    case TestEnabled => 4 + PostCost(run)
  }

  function PushCost(s: State, run: nat): nat {
    if s.owes then 5 + PostCost(run)
    else if s.ring.ppc == R.PushIdle then 0
    else 5 + PushRank(s.ring.ppc) + PostCost(run) + if R.Pushing(s.ring.ppc) then EVENT else 0
  }

  function IsrRank(sig: S.State, run: nat): nat {
    Times(sig.posted, PostCost(run)) + (if sig.queued then run else 0) +
    match sig.isr
    case IsrIdle => 0
    case IsrTest => 3 + run
    case IsrDisable => 2 + run
    case IsrQueue => 1 + run
  }

  function DpcRank(s: State): nat
    requires s.at <= |s.script|
  {
    if s.running then 1 + Times(|s.script| - s.at, CALL) + 10 * CallRank(s.sig.lpc) else 0
  }

  function DrainRank(r: R.State): nat
    requires R.Counters(r)
  {
    EVENT * (|r.pushed| - r.popped) + PopRank(r.cpc)
  }

  /** A bound on the moves the contexts in progress can still make. */
  function Rank(s: State): nat
    requires R.Counters(s.ring) && s.at <= |s.script|
  {
    var run := RunCost(s.script);
    PushCost(s, run) + InjectRank(s.sig.ipc, run) + IsrRank(s.sig, run) + DpcRank(s) + DrainRank(s.ring)
  }

  // What moves of South leave alone.
  predicate SouthFrame(s: State, t: State) {
    && t.script == s.script && t.running == s.running && t.at == s.at && t.sig.lpc == s.sig.lpc
    && t.ring.popped == s.ring.popped && t.ring.cpc == s.ring.cpc
  }

  lemma InjectSpends(sig: S.State, run: nat)
    requires sig.ipc != S.InjectIdle
    ensures var t := S.InjectStep(sig); InjectRank(t.ipc, run) + IsrRank(t, run) < InjectRank(sig.ipc, run) + IsrRank(sig, run)
  {
  }

  lemma SouthInjectSpends(s: State, e: R.Event, run: nat)
    requires R.Shape(s.ring) && Contexts(s) && (s.owes || s.sig.ipc != S.InjectIdle)
    ensures var t := SouthStep(s, e);
            && SouthFrame(s, t) && t.ring == s.ring
            && PushCost(t, run) + InjectRank(t.sig.ipc, run) + IsrRank(t.sig, run) <
               PushCost(s, run) + InjectRank(s.sig.ipc, run) + IsrRank(s.sig, run)
  {
    if s.sig.ipc != S.InjectIdle { InjectSpends(s.sig, run); }
  }

  lemma SouthPushSpends(s: State, e: R.Event, run: nat)
    requires R.Shape(s.ring) && R.Counters(s.ring) && Contexts(s) && SouthStep(s, e).ring.ppc != R.PushFailed
    requires !s.owes && s.sig.ipc == S.InjectIdle && s.ring.ppc != R.PushIdle
    ensures var t := SouthStep(s, e);
            && SouthFrame(s, t) && t.sig.ipc == S.InjectIdle && IsrRank(t.sig, run) == IsrRank(s.sig, run)
            && PushCost(t, run) + EVENT * |t.ring.pushed| < PushCost(s, run) + EVENT * |s.ring.pushed|
  {
  }

  // What such a move saves, it saves of the bound.
  lemma SouthMovesSpend(s: State, t: State, run: nat)
    requires R.Counters(s.ring) && R.Counters(t.ring) && s.at <= |s.script| && SouthFrame(s, t) && run == RunCost(s.script)
    requires PushCost(t, run) + InjectRank(t.sig.ipc, run) + IsrRank(t.sig, run) + EVENT * |t.ring.pushed| <
             PushCost(s, run) + InjectRank(s.sig.ipc, run) + IsrRank(s.sig, run) + EVENT * |s.ring.pushed|
    ensures Rank(t) < Rank(s)
  {
  }

  lemma SouthSpends(s: State, e: R.Event)
    requires R.Shape(s.ring) && R.Counters(s.ring) && Contexts(s) && Busy(s, SouthMove(e))
    requires R.Counters(SouthStep(s, e).ring)
    ensures SouthFrame(s, SouthStep(s, e)) && Rank(SouthStep(s, e)) < Rank(s)
  {
    var run := RunCost(s.script);
    if s.owes || s.sig.ipc != S.InjectIdle {
      SouthInjectSpends(s, e, run);
    } else {
      SouthPushSpends(s, e, run);
    }
    SouthMovesSpend(s, SouthStep(s, e), run);
  }

  lemma IsrRankSpends(sig: S.State, run: nat)
    requires sig.posted > 0 || sig.isr != S.IsrIdle
    ensures IsrRank(S.IsrStep(sig), run) < IsrRank(sig, run)
    ensures S.IsrStep(sig).ipc == sig.ipc && S.IsrStep(sig).lpc == sig.lpc
  {
  }

  lemma IsrSpends(s: State)
    requires R.Counters(s.ring) && Contexts(s) && Busy(s, IsrMove)
    ensures Rank(IsrStep(s)) < Rank(s)
  {
    IsrRankSpends(s.sig, RunCost(s.script));
  }

  // A move of the drain loop.
  lemma PopSpends(r: R.State)
    requires R.Shape(r) && R.Counters(r) && R.Counters(R.PopStep(r))
    ensures if r.cpc == R.PopIdle then DrainRank(R.PopStep(r)) == DrainRank(r) + 9
            else DrainRank(R.PopStep(r)) < DrainRank(r)
  {
  }

  // A move of a call.
  lemma CallSpends(sig: S.State)
    requires sig.lpc != S.LocalIdle
    ensures var t := S.LocalStep(sig, S.Wakeup);
            && CallRank(t.lpc) < CallRank(sig.lpc) && t.ipc == sig.ipc
            && t.posted == sig.posted && t.isr == sig.isr && t.queued == sig.queued
  {
  }

  // The start of a call.
  lemma StartSpends(sig: S.State, op: DpcOp)
    requires sig.lpc == S.LocalIdle
    ensures var t := S.LocalStep(sig, Call(op));
            && CallRank(t.lpc) <= 6 && t.ipc == sig.ipc
            && t.posted == sig.posted && t.isr == sig.isr && t.queued == sig.queued
  {
  }

  lemma DpcCallStarts(s: State)
    requires R.Counters(s.ring) && R.Shape(s.ring) && s.running && s.at < |s.script| && s.sig.lpc == S.LocalIdle
    ensures var t := DpcStep(s); t.at == s.at + 1 <= |t.script| && t.ring == s.ring && Rank(t) < Rank(s)
  {
    StartSpends(s.sig, s.script[s.at]);
  }

  // The start and the end of a run of the DPC, and the start of a call.
  lemma DpcIdleSpends(s: State)
    requires R.Shape(s.ring) && R.Counters(s.ring) && Contexts(s) && Busy(s, DpcMove) && s.sig.lpc == S.LocalIdle
    ensures DpcStep(s).ring == s.ring && DpcStep(s).at <= |DpcStep(s).script| && Rank(DpcStep(s)) < Rank(s)
  {
    if s.running {
      if s.at < |s.script| { DpcCallStarts(s); }
    } else {
      assert DpcStep(s).script == s.script;
    }
  }

  // What a call of the DPC leaves alone.
  predicate CallLeaves(s: State, t: State) {
    var run := RunCost(s.script);
    && t.script == s.script && t.at == s.at && s.running && t.running
    && PushCost(t, run) == PushCost(s, run) && t.sig.ipc == s.sig.ipc && IsrRank(t.sig, run) == IsrRank(s.sig, run)
  }

  lemma DpcCallLeaves(s: State)
    requires R.Shape(s.ring) && Contexts(s) && s.sig.lpc != S.LocalIdle
    ensures CallLeaves(s, DpcStep(s))
  {
    CallSpends(s.sig);
  }

  lemma DpcCallMoves(s: State)
    requires R.Shape(s.ring) && R.Counters(s.ring) && Contexts(s) && s.sig.lpc != S.LocalIdle
    requires R.Counters(R.PopStep(s.ring)) && R.Counters(DpcStep(s).ring)
    ensures var t := DpcStep(s);
            10 * CallRank(t.sig.lpc) + DrainRank(t.ring) < 10 * CallRank(s.sig.lpc) + DrainRank(s.ring)
  {
    PopSpends(s.ring);
    CallSpends(s.sig);
  }

  lemma CallMovesSpend(s: State, t: State)
    requires R.Counters(s.ring) && R.Counters(t.ring) && s.at <= |s.script| && CallLeaves(s, t)
    requires 10 * CallRank(t.sig.lpc) + DrainRank(t.ring) < 10 * CallRank(s.sig.lpc) + DrainRank(s.ring)
    ensures Rank(t) < Rank(s)
  {
  }

  lemma DpcCallSpends(s: State)
    requires R.Shape(s.ring) && R.Counters(s.ring) && Contexts(s) && s.sig.lpc != S.LocalIdle
    requires R.Counters(R.PopStep(s.ring)) && R.Counters(DpcStep(s).ring)
    ensures DpcStep(s).at <= |DpcStep(s).script| && Rank(DpcStep(s)) < Rank(s)
  {
    DpcCallLeaves(s);
    DpcCallMoves(s);
    CallMovesSpend(s, DpcStep(s));
  }

  // Every move of a context in progress uses up some of the bound.
  lemma BusySpends(s: State, m: Move)
    requires Inv(s) && Busy(s, m)
    ensures Inv(Next(s, m)) && Rank(Next(s, m)) < Rank(s)
  {
    NextKeeps(s, m);
    match m {
      case SouthMove(e) => SouthSpends(s, e);
      case DpcMove =>
        R.PopKeeps(s.ring);
        if s.sig.lpc == S.LocalIdle { DpcIdleSpends(s); } else { DpcCallSpends(s); }
      case IsrMove => IsrSpends(s);
    }
  }

  /** However the contexts in progress are scheduled, their run is no longer than the bound. */
  lemma {:induction false} BusyRunsEnd(s: State, ms: seq<Move>)
    requires Inv(s) && AllBusy(s, ms)
    ensures Inv(Run(Next, s, ms)) && Rank(Run(Next, s, ms)) + |ms| <= Rank(s)
    decreases |ms|
  {
    if ms != [] {
      BusySpends(s, ms[0]);
      BusyRunsEnd(Next(s, ms[0]), ms[1..]);
    }
  }

  // -------- what is delivered --------

  /** What South has pushed or begun to push. */
  function Promised(s: State): seq<R.Event> {
    s.ring.pushed + if R.Pushing(s.ring.ppc) then [s.ring.pev] else []
  }

  lemma PushKeepsPromised(r: R.State, e: R.Event)
    requires R.Shape(r) && r.ppc != R.PushIdle && R.PushStep(r, e).ppc != R.PushFailed
    ensures var t := R.PushStep(r, e);
            t.pushed + (if R.Pushing(t.ppc) then [t.pev] else []) == r.pushed + if R.Pushing(r.ppc) then [r.pev] else []
  {
  }

  lemma BusyKeepsPromised(s: State, m: Move)
    requires R.Shape(s.ring) && Busy(s, m) && (m.SouthMove? ==> SouthStep(s, m.e).ring.ppc != R.PushFailed)
    ensures Promised(Next(s, m)) == Promised(s)
  {
    match m {
      case SouthMove(e) =>
        if s.ring.ppc != R.PushIdle && R.PushStep(s.ring, e).ppc != R.PushFailed { PushKeepsPromised(s.ring, e); }
      case _ =>
    }
  }

  lemma {:induction false} RunKeepsPromised(s: State, ms: seq<Move>)
    requires Inv(s) && AllBusy(s, ms)
    ensures Promised(Run(Next, s, ms)) == Promised(s)
    decreases |ms|
  {
    if ms != [] {
      NextKeeps(s, ms[0]);
      BusyKeepsPromised(s, ms[0]);
      RunKeepsPromised(Next(s, ms[0]), ms[1..]);
    }
  }

  lemma RestDelivers(n: nat, script: seq<DpcOp>, before: seq<Move>, after: seq<Move>)
    requires n > 0 && EoiFollowsEnable(script) && AllBusy(Run(Next, Init(n, script), before), after)
    ensures var s := Run(Next, Init(n, script), before);
            var t := Run(Next, s, after);
            Quiescent(t) ==> t.ring.dispatched == Promised(s)
  {
    var s := Run(Next, Init(n, script), before);
    ReachesInv(n, script, s);
    RunKeepsPromised(s, after);
    RunAppend(Next, Init(n, script), before, after);
    EoiAfterEnableDelivers(n, script, before + after);
  }

  /** From every reachable state, once South starts no new push: whatever run the contexts in
      progress make is bounded, and when none of them has anything left to do, exactly what
      South had pushed or begun to push was dispatched, in order. */
  lemma EverythingGetsDelivered(n: nat, script: seq<DpcOp>, before: seq<Move>, after: seq<Move>)
    requires n > 0 && EoiFollowsEnable(script) && AllBusy(Run(Next, Init(n, script), before), after)
    ensures var s := Run(Next, Init(n, script), before);
            var t := Run(Next, s, after);
            && Inv(s) && |after| <= Rank(s)
            && ((forall m :: !Busy(t, m)) ==> t.ring.dispatched == Promised(s))
  {
    var s := Run(Next, Init(n, script), before);
    var t := Run(Next, s, after);
    ReachesInv(n, script, s);
    BusyRunsEnd(s, after);
    if forall m :: !Busy(t, m) {
      RestIsQuiescent(t);
      RestDelivers(n, script, before, after);
    }
  }

  /** Letting any context in progress move on, one move after the other, gets there. */
  lemma {:induction false} RestIsReached(s: State) returns (ms: seq<Move>)
    requires Inv(s)
    ensures AllBusy(s, ms) && Quiescent(Run(Next, s, ms))
    decreases Rank(s)
  {
    ms := [];
    if !Quiescent(s) {
      RestIsQuiescent(s);
      var m :| Busy(s, m);
      BusySpends(s, m);
      var rest := RestIsReached(Next(s, m));
      ms := [m] + rest;
      assert ms[1..] == rest;
    }
  }

  /** So from every reachable state the delivery of everything South began to push is reached. */
  lemma DeliveryIsReached(n: nat, script: seq<DpcOp>, before: seq<Move>) returns (after: seq<Move>)
    requires n > 0 && EoiFollowsEnable(script)
    ensures var s := Run(Next, Init(n, script), before);
            AllBusy(s, after) && Quiescent(Run(Next, s, after)) && Run(Next, s, after).ring.dispatched == Promised(s)
  {
    var s := Run(Next, Init(n, script), before);
    ReachesInv(n, script, s);
    after := RestIsReached(s);
    RestDelivers(n, script, before, after);
  }

  /** From every reachable state and for every run of the contexts in progress that ends with
      all at rest, everything was delivered. */
  ghost predicate AlwaysDelivers(script: seq<DpcOp>) {
    forall n: nat, before: seq<Move>, after: seq<Move> | n > 0 && AllBusy(Run(Next, Init(n, script), before), after) ::
      var s := Run(Next, Init(n, script), before);
      var t := Run(Next, s, after);
      Quiescent(t) ==> t.ring.dispatched == Promised(s)
  }

  /** Total delivery has the same exact condition as safe delivery. */
  lemma AlwaysDeliversExactlyWithEoiAfterEnable(script: seq<DpcOp>)
    ensures AlwaysDelivers(script) <==> EoiFollowsEnable(script)
  {
    if EoiFollowsEnable(script) {
      forall n: nat, before: seq<Move>, after: seq<Move> | n > 0 && AllBusy(Run(Next, Init(n, script), before), after)
        ensures var s := Run(Next, Init(n, script), before);
                var t := Run(Next, s, after);
                Quiescent(t) ==> t.ring.dispatched == Promised(s)
      {
        RestDelivers(n, script, before, after);
      }
    } else {
      Strands(script);
      var n: nat, ms :| n > 0 && Quiescent(Run(Next, Init(n, script), ms)) && !Delivered(Run(Next, Init(n, script), ms));
      var s := Run(Next, Init(n, script), ms);
      assert AllBusy(s, []) && Run(Next, s, []) == s;
    }
  }
}
