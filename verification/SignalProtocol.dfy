/** The shm-signal protocol on the irq structure of one locale, at the granularity of the
    individual loads and stores: one remote injector, one local context that makes any
    sequence of calls, and the interrupt service routine, which may preempt it. */
module SignalProtocol {
  import opened Runs

  // The calls a local context can make.
  datatype Op = Enable | Disable | Eoi | Wakeup

  /** ShmSignalInject, after its dirty store. */
  datatype InjectPc = InjectIdle | TestEnabled | TestPending | SetPending | Inject

  /** _ShmSignalWakeup, which Enable and Eoi run into after their store. */
  datatype LocalPc = LocalIdle | WakeEnabled | WakeDirty | WakePending | ClearDirty | Notify | Notified

  /** eventq_intr_isr. */
  datatype IsrPc = IsrIdle | IsrTest | IsrDisable | IsrQueue

  datatype State = State(
    // the shared irq structure
    enabled: bool, dirty: bool, pending: bool,
    ipc: InjectPc, lpc: LocalPc, isr: IsrPc,
    // interrupts injected and not yet taken, and the DPC request
    posted: nat, queued: bool,
    // history: changes published so far, how many of them an Inject has announced, how many
    // a notifier call started after; inject calls, Eoi calls and those that found pending set
    changes: nat, announced: nat, covered: nat, injects: nat, eois: nat, eoisFound: nat)

  // VbusAlloc zeroes the structure.
  const INIT := State(false, false, false, InjectIdle, LocalIdle, IsrIdle, 0, false, 0, 0, 0, 0, 0, 0)

  datatype Move = Publish | InjectMove | LocalMove(op: Op) | IsrMove | TakeDpc

  function InjectStep(s: State): State {
    match s.ipc
    case InjectIdle => s.(ipc := TestEnabled, dirty := true, announced := s.changes)
    case TestEnabled => s.(ipc := if s.enabled then TestPending else InjectIdle)
    case TestPending => s.(ipc := if s.pending then InjectIdle else SetPending)
    case SetPending => s.(ipc := Inject, pending := true)
    case Inject => s.(ipc := InjectIdle, posted := s.posted + 1, injects := s.injects + 1)
  }

  // An idle context starts the call op with its first store; otherwise it goes on.
  function LocalStep(s: State, op: Op): State {
    match s.lpc
    case LocalIdle => (
      match op
      case Enable => s.(lpc := WakeEnabled, enabled := true)
      case Disable => s.(enabled := false)
      case Eoi => s.(lpc := WakeEnabled, pending := false, eois := s.eois + 1,
                     eoisFound := s.eoisFound + if s.pending then 1 else 0)
      case Wakeup => s.(lpc := WakeEnabled))
    case WakeEnabled => s.(lpc := if s.enabled then WakeDirty else LocalIdle)
    case WakeDirty => s.(lpc := if s.dirty then ClearDirty else WakePending)
    case WakePending => s.(lpc := if s.pending then ClearDirty else LocalIdle)
    case ClearDirty => s.(lpc := Notify, dirty := false)
    case Notify => s.(lpc := Notified, covered := s.changes)
    case Notified => s.(lpc := LocalIdle)
  }

  function IsrStep(s: State): (t: State)
    ensures t.dirty == s.dirty && t.pending == s.pending && (t.enabled ==> s.enabled)
  {
    match s.isr
    case IsrIdle => if s.posted == 0 then s else s.(isr := IsrTest, posted := s.posted - 1)
    case IsrTest => s.(isr := if s.enabled then IsrDisable else IsrIdle)
    case IsrDisable => s.(isr := IsrQueue, enabled := false)
    case IsrQueue => s.(isr := IsrIdle, queued := true)
  }

  function Next(s: State, m: Move): State {
    match m
    case Publish => s.(changes := s.changes + 1)
    case InjectMove => InjectStep(s)
    case LocalMove(op) => LocalStep(s, op)
    case IsrMove => IsrStep(s)
    case TakeDpc => s.(queued := false)
  }

  // -------- the inductive invariant --------

  /** A dirty and unmasked signal is pending, or somebody is about to look at it: the
      injector before its own tests, or the local context before its test of dirty. */
  predicate Dekker(s: State) {
    s.dirty && s.enabled && !s.pending ==>
      || (!s.ipc.InjectIdle? && !s.ipc.Inject?)
      || s.lpc == WakeEnabled || s.lpc == WakeDirty || s.lpc == ClearDirty
  }

  /** What was announced is covered by a notifier call that started later, or still dirty,
      or a notifier call is about to start. */
  predicate Covered(s: State) {
    && s.announced <= s.changes && s.covered <= s.changes
    && (s.announced <= s.covered || s.dirty || s.lpc == Notify)
  }

  /** Every store of pending by the injector is matched by an Eoi that found it. */
  predicate Matched(s: State) {
    && (s.ipc == SetPending ==> !s.pending)
    && s.injects + (if s.ipc == Inject then 1 else 0) == s.eoisFound + (if s.pending then 1 else 0)
    && s.eoisFound <= s.eois
  }

  predicate Inv(s: State) {
    Dekker(s) && Covered(s) && Matched(s)
  }

  lemma InjectKeeps(s: State)
    requires Inv(s)
    ensures Inv(InjectStep(s))
  {
  }

  lemma LocalKeepsDekker(s: State, op: Op)
    requires Dekker(s)
    ensures Dekker(LocalStep(s, op))
  {
  }

  lemma LocalKeepsCovered(s: State, op: Op)
    requires Covered(s)
    ensures Covered(LocalStep(s, op))
  {
  }

  lemma LocalKeepsMatched(s: State, op: Op)
    requires Matched(s)
    ensures Matched(LocalStep(s, op))
  {
  }

  lemma LocalKeeps(s: State, op: Op)
    requires Inv(s)
    ensures Inv(LocalStep(s, op))
  {
    LocalKeepsDekker(s, op);
    LocalKeepsCovered(s, op);
    LocalKeepsMatched(s, op);
  }

  lemma IsrKeeps(s: State)
    requires Inv(s)
    ensures Inv(IsrStep(s))
  {
    assert Dekker(IsrStep(s));
    match s.isr {
      case IsrIdle =>
      case IsrTest =>
      case IsrDisable =>
      case IsrQueue =>
    }
  }

  lemma NextKeeps(s: State, m: Move)
    requires Inv(s)
    ensures Inv(Next(s, m))
  {
    match m {
      case InjectMove => InjectKeeps(s);
      case LocalMove(op) => LocalKeeps(s, op);
      case IsrMove => IsrKeeps(s);
      case _ =>
    }
  }

  lemma RunInv(ms: seq<Move>)
    ensures Inv(Run(Next, INIT, ms))
  {
    forall s, m | Inv(s)
      ensures Inv(Next(s, m))
    {
      NextKeeps(s, m);
    }
    RunKeeps(Next, Inv, INIT, ms);
  }

  // -------- what every run guarantees --------

  /** No lost wakeup: once the injector and the local context are between calls, a change
      published before an Inject was seen by a notifier call that started after it, or is
      still recorded in dirty; and if notifications are enabled then dirty implies pending,
      that is, an Eoi is owed.  The Inject may have raced any call, been raised while
      masked, or had its interrupt discarded. */
  lemma NoLostWakeup(ms: seq<Move>)
    ensures var s := Run(Next, INIT, ms);
            s.ipc == InjectIdle && s.lpc == LocalIdle ==>
              && (s.announced <= s.covered || s.dirty)
              && (s.dirty && s.enabled ==> s.pending)
  {
    RunInv(ms);
  }

  /** Notification mitigation is conserved: the injector's stores of pending minus the Eoi
      calls that found it set is the current value of pending. */
  lemma MitigationConserved(ms: seq<Move>)
    ensures var s := Run(Next, INIT, ms);
            && s.injects + (if s.ipc == Inject then 1 else 0) == s.eoisFound + (if s.pending then 1 else 0)
            && s.injects <= s.eois + 1
            && (s.eois == 0 ==> s.injects <= 1)
  {
    RunInv(ms);
  }

  // -------- a masked signal --------

  // Nobody unmasks the signal.
  predicate NoEnable(ms: seq<Move>) {
    forall i | 0 <= i < |ms| :: ms[i] != LocalMove(Enable)
  }

  /** Masked, and nobody past his test of enabled. */
  predicate Masked(s: State) {
    && !s.enabled
    && (s.ipc == InjectIdle || s.ipc == TestEnabled)
    && (s.lpc == LocalIdle || s.lpc == WakeEnabled)
    && (s.isr == IsrIdle || s.isr == IsrTest)
  }

  // No inject call, no notifier call, no DPC request, and pending is never set.
  predicate Silent(s: State, t: State) {
    && t.injects == s.injects && t.covered == s.covered && t.posted <= s.posted
    && (t.pending ==> s.pending) && (t.queued ==> s.queued)
  }

  lemma MaskedStep(s: State, m: Move)
    requires Masked(s) && m != LocalMove(Enable)
    ensures Masked(Next(s, m)) && Silent(s, Next(s, m))
  {
  }

  /** A masked signal is left alone: until somebody unmasks it, whatever the other side
      injects only marks it dirty, and interrupts still under way are discarded. */
  lemma {:induction false} MaskedIsSilent(s: State, ms: seq<Move>)
    requires Masked(s) && NoEnable(ms)
    ensures Masked(Run(Next, s, ms)) && Silent(s, Run(Next, s, ms))
    decreases |ms|
  {
    if ms != [] {
      MaskedStep(s, ms[0]);
      MaskedIsSilent(Next(s, ms[0]), ms[1..]);
    }
  }

  /** A signal that was never enabled was never pending, never injected, and never notified
      anybody. */
  lemma NeverEnabledNeverInjected(ms: seq<Move>)
    requires NoEnable(ms)
    ensures var s := Run(Next, INIT, ms);
            s.injects == 0 && s.posted == 0 && !s.pending && s.covered == 0 && !s.queued
  {
    MaskedIsSilent(INIT, ms);
  }

  // -------- whole calls --------

  /** The shared irq structure. */
  datatype Irq = Irq(enabled: bool, dirty: bool, pending: bool)

  function IrqOf(s: State): Irq {
    Irq(s.enabled, s.dirty, s.pending)
  }

  /** What a local call that nobody interrupts leaves: a wakeup of an unmasked signal leaves
      it clean, and only Eoi clears pending. */
  function AfterCall(irq: Irq, op: Op): Irq {
    match op
    case Enable => Irq(true, false, irq.pending)
    case Disable => irq.(enabled := false)
    case Eoi => Irq(irq.enabled, irq.dirty && !irq.enabled, false)
    case Wakeup => irq.(dirty := irq.dirty && !irq.enabled)
  }

  /** Whether that call runs the notifier. */
  predicate Notifies(irq: Irq, op: Op) {
    match op
    case Enable => irq.dirty || irq.pending
    case Disable => false
    case Eoi => irq.enabled && irq.dirty
    case Wakeup => irq.enabled && (irq.dirty || irq.pending)
  }

  function AfterInject(irq: Irq): Irq {
    Irq(irq.enabled, true, irq.pending || irq.enabled)
  }

  /** The steps of an Inject that nobody interrupts amount to the whole call. */
  lemma SoloInject(s: State) returns (t: State)
    requires s.ipc == InjectIdle
    ensures Reaches(Next, s, t) && t.ipc == InjectIdle && t.lpc == s.lpc && t.isr == s.isr
    ensures IrqOf(t) == AfterInject(IrqOf(s)) && t.announced == s.changes
    ensures t.injects - s.injects == t.posted - s.posted
    ensures t.dirty && t.enabled == s.enabled
    ensures s.enabled && !s.pending ==> t.pending && t.injects == s.injects + 1
    ensures !s.enabled || s.pending ==> t.pending == s.pending && t.injects == s.injects
  {
    ReachesSelf<State, Move>(Next, s);
    t := After(Next, s, s, InjectMove);
    t := After(Next, s, t, InjectMove);
    if s.enabled {
      t := After(Next, s, t, InjectMove);
      if !s.pending {
        t := After(Next, s, t, InjectMove);
        t := After(Next, s, t, InjectMove);
      }
    }
  }

  lemma SoloNotify(s0: State, s: State, op: Op) returns (t: State)
    requires Reaches(Next, s0, s) && s.lpc == ClearDirty
    ensures Reaches(Next, s0, t) && t == s.(lpc := LocalIdle, dirty := false, covered := s.changes)
  {
    t := After(Next, s0, s, LocalMove(op));
    t := After(Next, s0, t, LocalMove(op));
    t := After(Next, s0, t, LocalMove(op));
  }

  lemma SoloWakeup(s0: State, s: State, op: Op) returns (t: State)
    requires Reaches(Next, s0, s) && s.lpc == WakeEnabled
    ensures Reaches(Next, s0, t) && t.lpc == LocalIdle && t.ipc == s.ipc && t.isr == s.isr
    ensures IrqOf(t) == AfterCall(IrqOf(s), Wakeup)
    ensures t.covered == if Notifies(IrqOf(s), Wakeup) then s.changes else s.covered
  {
    t := After(Next, s0, s, LocalMove(op));
    if s.enabled {
      t := After(Next, s0, t, LocalMove(op));
      if !s.dirty { t := After(Next, s0, t, LocalMove(op)); }
      if s.dirty || s.pending { t := SoloNotify(s0, t, op); }
    }
  }

  /** The steps of a local call that nobody interrupts amount to the whole call. */
  lemma SoloCall(s: State, op: Op) returns (t: State)
    requires s.lpc == LocalIdle
    ensures Reaches(Next, s, t) && t.lpc == LocalIdle && t.ipc == s.ipc && t.isr == s.isr
    ensures IrqOf(t) == AfterCall(IrqOf(s), op)
    ensures t.enabled == (op == Enable || (op != Disable && s.enabled)) && t.pending == (op != Eoi && s.pending)
    ensures t.dirty == (s.dirty && (op == Disable || !t.enabled))
    ensures t.covered == if op != Disable && t.enabled && (s.dirty || t.pending) then s.changes else s.covered
  {
    ReachesSelf<State, Move>(Next, s);
    t := After(Next, s, s, LocalMove(op));
    if op != Disable { t := SoloWakeup(s, t, op); }
  }
}
