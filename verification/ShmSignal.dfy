/** struct shm_signal: the whole calls of one side, each proved to have the effect its
    individual loads and stores amount to in the signal protocol. */
module ShmSignal {
  import opened SignalProtocol

  class Signal {
    // the irq structures of the own locale and of the other one
    var local: Irq
    var remote: Irq
    // notifier calls and inject calls made so far
    var notified: nat
    var injected: nat

    /** ShmSignalInit over zeroed shared memory. */
    constructor ()
      ensures local == remote == Irq(false, false, false) && notified == injected == 0
    {
      local, remote := Irq(false, false, false), Irq(false, false, false);
      notified, injected := 0, 0;
    }

    method Wakeup()
      modifies this`local, this`notified
      ensures local == AfterCall(old(local), SignalProtocol.Wakeup)
      ensures local.enabled == old(local.enabled) && local.pending == old(local.pending)
      ensures local.dirty == (old(local.dirty) && !old(local.enabled))
      ensures notified == old(notified) + if old(local.enabled && (local.dirty || local.pending)) then 1 else 0
    {
      if local.enabled && (local.dirty || local.pending) {
        local := local.(dirty := false);
        notified := notified + 1;
      }
    }

    method Enable()
      modifies this`local, this`notified
      ensures local == AfterCall(old(local), SignalProtocol.Enable)
      ensures local == Irq(true, false, old(local.pending))
      ensures notified == old(notified) + if old(local.dirty || local.pending) then 1 else 0
    {
      local := local.(enabled := true);
      Wakeup();
    }

    method Disable()
      modifies this`local
      ensures local == AfterCall(old(local), SignalProtocol.Disable)
      ensures local == Irq(false, old(local.dirty), old(local.pending))
    {
      local := local.(enabled := false);
    }

    /** True exactly when an Inject of the other side would now reach the notifier: the service
        routine discards an interrupt otherwise. */
    method TestEnabled() returns (enabled: bool)
      ensures enabled == local.enabled
      ensures enabled <==> Notifies(AfterInject(local), SignalProtocol.Wakeup)
    {
      enabled := local.enabled;
    }

    method Eoi()
      modifies this`local, this`notified
      ensures local == AfterCall(old(local), SignalProtocol.Eoi)
      ensures local == Irq(old(local.enabled), old(local.dirty) && !old(local.enabled), false)
      ensures notified == old(notified) + if old(local.enabled && local.dirty) then 1 else 0
    {
      local := local.(pending := false);
      Wakeup();
    }

    method Inject()
      modifies this`remote, this`injected
      ensures remote == AfterInject(old(remote))
      ensures remote.dirty && remote.enabled == old(remote.enabled)
      ensures old(remote.enabled) && !old(remote.pending) ==> remote.pending && injected == old(injected) + 1
      ensures !old(remote.enabled) || old(remote.pending) ==> remote.pending == old(remote.pending) && injected == old(injected)
    {
      remote := remote.(dirty := true);
      if remote.enabled && !remote.pending {
        remote := remote.(pending := true);
        injected := injected + 1;
      }
    }
  }
}
