/** Whole runs of the call manager object: it follows the state machine, and when it keeps the heap clean. */
module CallRuns {
  import opened CallModel
  import opened CallLifecycle
  import opened CallOrderly
  import opened CallManagers
  import opened ContactStores
  import Contacts

  ghost predicate AllDue(c: Config, v: View, events: seq<Event>)
    decreases |events|
  {
    events == [] || (Due(v, events[0]) && AllDue(c, Step(c, v, events[0]), events[1..]))
  }

  /** Deliver events one after the other. */
  method HandleAll(m: CallManager, events: seq<Event>)
    requires m.Valid() && AllDue(m.config, m.View(), events)
    modifies m, m.contacts, m.keys, m.keys.buffers
    ensures m.Valid() && fresh(m.keys.buffers - old(m.keys.buffers))
    ensures m.View() == Run(m.config, old(m.View()), events)
  {
    ghost var goal := Run(m.config, m.View(), events);
    var i := 0;
    while i < |events|
      invariant i <= |events| && m.Valid() && fresh(m.keys.buffers - old(m.keys.buffers))
      invariant AllDue(m.config, m.View(), events[i..])
      invariant Run(m.config, m.View(), events[i..]) == goal
    {
      assert events[i..][0] == events[i] && events[i..][1..] == events[i + 1..];
      m.Handle(events[i]);
      i := i + 1;
    }
  }

  /**
   * From start-up, through any run of due events: the object is in the state the machine says.  When no step overwrites
   * a secret, every secret buffer ever allocated is installed or all zeros; when every step is allowed, the lifecycle
   * invariant holds; an orderly run is one of both.
   */
  method Lifetime(config: Config, store: ContactStore, events: seq<Event>) returns (m: CallManager)
    requires AllDue(config, Init(config, Contacts.PurgeLoopback(store.contacts)), events)
    modifies store
    ensures m.Valid() && m.config == config
    ensures m.View() == Run(config, Init(config, Contacts.PurgeLoopback(old(store.contacts))), events)
    ensures NoOverwrites(config, Init(config, Contacts.PurgeLoopback(old(store.contacts))), events) ==>
              m.keys.Hygienic()
    ensures AllAllowed(config, Init(config, Contacts.PurgeLoopback(old(store.contacts))), events) ==>
              Lifecycle(m.View())
    ensures AllOrderly(config, Init(config, Contacts.PurgeLoopback(old(store.contacts))), events) ==>
              m.keys.Hygienic() && Lifecycle(m.View())
  {
    ghost var start := Init(config, Contacts.PurgeLoopback(store.contacts));
    m := new CallManager(config, store);
    HandleAll(m, events);
    if AllOrderly(config, start, events) {
      OrderlyRun(config, start, events);
    }
    if AllAllowed(config, start, events) {
      AllowedStepsKeepLifecycle(config, start, events);
    }
    CleanRunIff(config, start, events);
    if NoOverwrites(config, start, events) {
      m.keys.NoLeakNoResidue();
    }
  }
}
