/** The event path end to end: South pushes events and signals after each push; the
    interrupt service routine masks and requests a DPC; the DPC runs a script of calls on
    the signal, whose notifier is eventq_wakeup draining the in-use ring.  Every load and
    store of the three contexts is a separate move. */
module EventPath {
  import opened Ring
  import opened Runs
  import R = RingProtocol
  import S = SignalProtocol

  // The calls a DPC makes.
  datatype DpcOp = DpcWakeup | DpcEnable | DpcEoi

  function Call(op: DpcOp): S.Op {
    match op
    case DpcWakeup => S.Wakeup
    case DpcEnable => S.Enable
    case DpcEoi => S.Eoi
  }

  // eventq_intr_dpc as the driver has it: it never calls ShmSignalEoi.
  const SOURCE_DPC := [DpcWakeup, DpcEnable]

  datatype State = State(
    ring: R.State, sig: S.State,
    // South has pushed and not signalled yet
    owes: bool,
    // the DPC: its script, whether it runs, and its next call
    script: seq<DpcOp>, running: bool, at: nat)

  datatype Move = SouthMove(e: R.Event) | DpcMove | IsrMove

  /** The state eventq_init leaves, with notifications enabled. */
  function Init(n: nat, script: seq<DpcOp>): State
    requires n > 0
  {
    State(R.Init(n, South), S.INIT.(enabled := true), false, script, false, 0)
  }

  // ioq_iter_push followed by ioq_signal.
  function SouthStep(s: State, e: R.Event): State
    requires R.Shape(s.ring)
  {
    if s.owes || s.sig.ipc != S.InjectIdle then
      s.(owes := false, sig := S.InjectStep(s.sig))
    else
      s.(ring := R.PushStep(s.ring, e), owes := s.ring.ppc == R.PushSeek,
         sig := if s.ring.ppc == R.PushFlip then S.Next(s.sig, S.Publish) else s.sig)
  }

  function DpcStep(s: State): State
    requires R.Shape(s.ring)
  {
    if !s.running then
      if s.sig.queued then s.(sig := S.Next(s.sig, S.TakeDpc), running := true, at := 0) else s
    else if s.sig.lpc == S.LocalIdle then
      if s.at < |s.script| then s.(sig := S.LocalStep(s.sig, Call(s.script[s.at])), at := s.at + 1)
      else s.(running := false)
    else if s.sig.lpc == S.Notify then
      s.(sig := S.LocalStep(s.sig, S.Wakeup), ring := R.PopStep(s.ring))
    else if s.sig.lpc == S.Notified && s.ring.cpc != R.PopIdle then
      s.(ring := R.PopStep(s.ring))
    else
      s.(sig := S.LocalStep(s.sig, S.Wakeup))
  }

  function IsrStep(s: State): State {
    s.(sig := S.IsrStep(s.sig))
  }

  function Next(s: State, m: Move): State {
    if !R.Shape(s.ring) then s
    else
      match m
      case SouthMove(e) => SouthStep(s, e)
      case DpcMove => DpcStep(s)
      case IsrMove => IsrStep(s)
  }

  // -------- the inductive invariant --------

  /** Which context may be where. */
  predicate Contexts(s: State) {
    && s.ring.producer == South
    && (s.owes || s.sig.ipc != S.InjectIdle ==> s.ring.ppc == R.PushIdle)
    && (s.owes ==> s.sig.ipc == S.InjectIdle)
    && (s.ring.cpc != R.PopIdle ==> s.sig.lpc == S.Notified)
    && (s.sig.lpc != S.LocalIdle ==> s.running)
    && s.at <= |s.script|
  }

  /** A ring that holds events is known to be dirty, or South is about to say so, or the
      drain loop is running or about to run. */
  predicate Noticed(s: State) {
    s.ring.popped < |s.ring.pushed| ==>
      || s.sig.dirty || s.owes || s.ring.ppc == R.PushSeek || s.sig.lpc == S.Notify
      || (s.sig.lpc == S.Notified && s.ring.cpc != R.PopIdle)
  }

  ghost predicate Inv(s: State) {
    R.Inv(s.ring) && S.Inv(s.sig) && Contexts(s) && Noticed(s)
  }

  lemma SouthKeeps(s: State, e: R.Event)
    requires Inv(s)
    ensures Inv(SouthStep(s, e))
  {
    R.PushKeeps(s.ring, e);
    S.InjectKeeps(s.sig);
    S.NextKeeps(s.sig, S.Publish);
  }

  lemma DpcKeepsParts(s: State)
    requires R.Inv(s.ring) && S.Inv(s.sig)
    ensures R.Inv(DpcStep(s).ring) && S.Inv(DpcStep(s).sig)
  {
    R.PopKeeps(s.ring);
    S.NextKeeps(s.sig, S.TakeDpc);
    S.LocalKeeps(s.sig, S.Wakeup);
    if s.at < |s.script| { S.LocalKeeps(s.sig, Call(s.script[s.at])); }
  }

  lemma DpcKeepsContexts(s: State)
    requires R.Shape(s.ring) && Contexts(s)
    ensures Contexts(DpcStep(s))
  {
  }

  /** The drain loop leaves only a ring it has seen empty. */
  lemma DpcKeepsNoticed(s: State)
    requires R.Inv(s.ring) && Contexts(s) && Noticed(s)
    ensures Noticed(DpcStep(s))
  {
    R.PopperSeesWork(s.ring);
  }

  lemma DpcKeeps(s: State)
    requires Inv(s)
    ensures Inv(DpcStep(s))
  {
    DpcKeepsParts(s);
    DpcKeepsContexts(s);
    DpcKeepsNoticed(s);
  }

  lemma IsrKeeps(s: State)
    requires Inv(s)
    ensures Inv(IsrStep(s))
  {
    S.IsrKeeps(s.sig);
  }
}
