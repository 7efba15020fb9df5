/** The reconnect budget and the end of reconnecting, however many disconnect callbacks one drop has posted. */
module CallReconnect {
  import opened Wrappers
  import opened Primitives
  import opened PeerVerification
  import opened CallModel
  import opened CallOutcomes
  import opened CallLifecycle
  import Contacts

  /** Re-dials scheduled by a step: timers started, counting one that the step itself has used up. */
  function Scheduled(c: Config, v: View, e: Event): int {
    Step(c, v, e).pending.timers - v.pending.timers + (if e.ReconnectTimer? && v.pending.timers > 0 then 1 else 0)
  }

  function ScheduledOver(c: Config, v: View, events: seq<Event>): int
    decreases |events|
  {
    if events == [] then 0
    else Scheduled(c, v, events[0]) + ScheduledOver(c, Step(c, v, events[0]), events[1..])
  }

  /** The attempt counter is never set back along the run. */
  ghost predicate NoReset(c: Config, v: View, events: seq<Event>)
    decreases |events|
  {
    events == [] || (
      && v.call.attempts <= Step(c, v, events[0]).call.attempts
      && NoReset(c, Step(c, v, events[0]), events[1..]))
  }

  /** A drop is handled, or a re-dial fails, while the caller may still try again. */
  predicate Redials(c: Config, v: View, e: Event) {
    && MayReconnect(c, v.call)
    && match e
       case DisconnectCallback => v.pending.callbacks > 0 && v.state != Idle
       case Failed => v.pending.dials > 0 && v.call.reconnecting
       case TimedOut => v.pending.dials > 0 && v.call.reconnecting
       case _ => false
  }

  lemma LossSchedules(c: Config, v: View, e: Event)
    requires EndsCalls(e)
    ensures Scheduled(c, v, e) == if Redials(c, v, e) then 1 else 0
    ensures Scheduled(c, v, e) == 1 ==>
              && Step(c, v, e).call.attempts == v.call.attempts + 1 && v.call.attempts < c.maxAttempts
              && v.call.isCaller && HasPeer(v) && !v.call.userEnded
    ensures Step(c, v, e).call.attempts > v.call.attempts ==> Scheduled(c, v, e) == 1
  {
  }

  lemma TurnSchedulesNothing(c: Config, v: View, e: Event)
    requires e.SendTick? || e.Receive? || e.Captured?
    ensures Scheduled(c, v, e) == 0 && Step(c, v, e).call.attempts == v.call.attempts
  {
  }

  /**
   * One re-dial at most for each step, exactly when the caller may try again; and then the counter moves up by one
   * within the budget; only a caller who knows the address re-dials, and never after either side has hung up.
   */
  lemma ScheduledOnce(c: Config, v: View, e: Event)
    ensures Scheduled(c, v, e) == if Redials(c, v, e) then 1 else 0
    ensures Scheduled(c, v, e) == 1 ==>
              && Step(c, v, e).call.attempts == v.call.attempts + 1 && v.call.attempts < c.maxAttempts
              && v.call.isCaller && HasPeer(v) && !v.call.userEnded
    ensures Step(c, v, e).call.attempts > v.call.attempts ==> Scheduled(c, v, e) == 1
  {
    if IsAnswer(e) {
      AnswerConcludes(c, v, e);
      OutcomeSchedulesNothing(c, v, e, OutcomeOf(c, v, e));
    } else if EndsCalls(e) {
      LossSchedules(c, v, e);
    } else if e.SendTick? || e.Receive? || e.Captured? {
      TurnSchedulesNothing(c, v, e);
    }
  }

  /** A call that the user places is the caller's own, wanted, and has the whole budget, whatever went before. */
  lemma PlacedCallHasWholeBudget(c: Config, v: View, address: string, m: Material)
    requires v.state == Idle
    ensures var w := Step(c, v, PlaceCall(address, m)).call;
            w.isCaller && !w.userEnded && !w.reconnecting && w.attempts == 0 && w.peer == Some(address)
  {
  }

  /** An answered dial gives the caller the whole budget back. */
  lemma AnsweredDialRestoresBudget(c: Config, v: View, e: Event)
    requires e.Connected? && OutcomeOf(c, v, e).Entered?
    ensures Step(c, v, e).call.attempts == 0 && !Step(c, v, e).call.reconnecting
    ensures Step(c, v, e).call.isCaller == v.call.isCaller && Step(c, v, e).call.peer == v.call.peer
  {
    AnswerConcludes(c, v, e);
  }

  lemma OutcomeSchedulesNothing(c: Config, v: View, e: Event, o: Outcome)
    requires IsAnswer(e) && Fits(v, e, o)
    ensures var w := Conclude(c, v, o);
            w.pending.timers == v.pending.timers && w.call.attempts <= v.call.attempts
  {
  }

  /** Between two resets of the counter at most maxAttempts re-dials are scheduled, and the counter counts them. */
  lemma {:induction false} ReconnectBudget(c: Config, v: View, events: seq<Event>)
    requires NoReset(c, v, events)
    ensures 0 <= ScheduledOver(c, v, events) == Run(c, v, events).call.attempts - v.call.attempts
    ensures v.call.attempts + ScheduledOver(c, v, events) <= Max(c.maxAttempts, v.call.attempts)
    decreases |events|
  {
    if events != [] {
      ScheduledOnce(c, v, events[0]);
      ReconnectBudget(c, Step(c, v, events[0]), events[1..]);
    }
  }

  function Max(a: int, b: int): int {
    if a < b then b else a
  }

  // ---------------------------------------------------------------------------
  // Termination when every dial fails
  // ---------------------------------------------------------------------------

  /** Bad news that is due: a disconnect to handle, a timer to run out, a dial to fail. */
  predicate Failing(v: View, e: Event) {
    match e
    case DisconnectCallback => v.pending.callbacks > 0
    case ReconnectTimer(_) => v.pending.timers > 0
    case Failed => v.pending.dials > 0
    case TimedOut => v.pending.dials > 0
    case Rejected => v.pending.dials > 0
    case _ => false
  }

  function FailingOver(c: Config, v: View, events: seq<Event>): nat
    decreases |events|
  {
    if events == [] then 0
    else (if Failing(v, events[0]) then 1 else 0) + FailingOver(c, Step(c, v, events[0]), events[1..])
  }

  /** Disconnects posted by a step. */
  function Posted(c: Config, v: View, e: Event): nat {
    Max(0, Step(c, v, e).pending.callbacks - v.pending.callbacks)
  }

  function PostedOver(c: Config, v: View, events: seq<Event>): nat
    decreases |events|
  {
    if events == [] then 0 else Posted(c, v, events[0]) + PostedOver(c, Step(c, v, events[0]), events[1..])
  }

  /** What is left to do: three for each attempt a caller has left, two for a timer, one for a dial or callback. */
  function Measure(c: Config, v: View): nat {
    (if v.call.isCaller then 3 * Max(0, c.maxAttempts - v.call.attempts) else 0)
    + v.pending.callbacks + 2 * v.pending.timers + v.pending.dials
  }

  lemma OutcomeMeasure(c: Config, v: View, e: Event, o: Outcome)
    requires e.AcceptCall? && Fits(v, e, o)
    ensures Measure(c, Conclude(c, v, o)) <= Measure(c, v)
  {
  }

  lemma FailingStepMeasure(c: Config, v: View, e: Event)
    requires Failing(v, e)
    ensures Measure(c, Step(c, v, e)) < Measure(c, v)
  {
  }

  lemma AudioStepMeasure(c: Config, v: View, e: Event)
    requires e.SendTick? || e.Receive? || e.Captured?
    ensures Measure(c, Step(c, v, e)) <= Measure(c, v) + Posted(c, v, e)
  {
  }

  lemma StepMeasure(c: Config, v: View, e: Event)
    requires !e.PlaceCall? && !e.Connected?
    ensures Measure(c, Step(c, v, e)) + (if Failing(v, e) then 1 else 0) <= Measure(c, v) + Posted(c, v, e)
  {
    if e.AcceptCall? {
      AnswerConcludes(c, v, e);
      OutcomeMeasure(c, v, e, OutcomeOf(c, v, e));
    } else if Failing(v, e) {
      FailingStepMeasure(c, v, e);
    } else if e.SendTick? || e.Receive? || e.Captured? {
      AudioStepMeasure(c, v, e);
    }
  }

  /**
   * From any state, in any run in which the user places no call and no dial is answered, whatever else happens: the
   * bad news that comes due is bounded by the measure and the disconnects posted on the way.
   */
  lemma {:induction false} FailingEventsBounded(c: Config, v: View, events: seq<Event>)
    requires forall i :: 0 <= i < |events| ==> !events[i].PlaceCall? && !events[i].Connected?
    ensures FailingOver(c, v, events) + Measure(c, Run(c, v, events)) <= Measure(c, v) + PostedOver(c, v, events)
    decreases |events|
  {
    if events != [] {
      StepMeasure(c, v, events[0]);
      FailingEventsBounded(c, Step(c, v, events[0]), events[1..]);
    }
  }

  // ---------------------------------------------------------------------------
  // Never dialling with nothing pending
  // ---------------------------------------------------------------------------

  predicate TimerWillDial(v: View) {
    v.pending.timers > 0 && HasPeer(v)
  }

  /** A dialling machine has a dial that will report or a timer that will dial; loops live in calls only. */
  ghost predicate Settled(v: View) {
    && (v.state == Dialing ==> v.pending.dials > 0 || TimerWillDial(v))
    && (Resting(v) ==> !v.call.reconnecting && !v.call.isCaller)
    && (v.call.userEnded ==> v.state == InCall)
    && (v.pending.receivers > 0 || v.pending.senders > 0 ==> v.state == InCall)
  }

  predicate CannotBuild(c: Config, v: View, m: Material) {
    BuildHandshake(c.suite, c.identityPrivate, c.suite.publicOf(m.private), m.nonce, v.local).None?
  }

  /**
   * An exception ends the only thing that was pending: a due dial cannot build its handshake, or the last dial is
   * answered by a verified peer with whom the exchange fails.
   */
  predicate Sticks(c: Config, v: View, e: Event) {
    match e
    case PlaceCall(address, m) =>
      v.state == Idle && CannotBuild(c, v, m) && v.pending.dials == 0 && (v.pending.timers == 0 || address == "")
    case ReconnectTimer(m) =>
      v.state == Dialing && CannotBuild(c, v, m) && v.pending.dials == 0 && v.pending.timers == 1
    case Connected(_, payload, now) =>
      && v.state == Dialing && v.pending.dials == 1 && !TimerWillDial(v)
      && var address := PeerAddress(v.call);
         var ephemeral := VerifyPeer(c.suite, now, v.contacts, payload, address).ephemeral;
         ephemeral.Some? && Agree(c, v, ephemeral.value, true).None?
    case _ => false
  }

  lemma ConnectedRaisesExactly(c: Config, v: View, e: Event)
    requires e.Connected? && v.pending.dials > 0
    ensures OutcomeOf(c, v, e).Raised? <==>
              var address := PeerAddress(v.call);
              var ephemeral := VerifyPeer(c.suite, e.now, v.contacts, e.payload, address).ephemeral;
              ephemeral.Some? && Agree(c, v, ephemeral.value, true).None?
  {
  }

  lemma OutcomeKeepsSettledIff(c: Config, v: View, e: Event, o: Outcome)
    requires Settled(v) && IsAnswer(e) && Fits(v, e, o)
    ensures Settled(Conclude(c, v, o)) <==>
              !(e.Connected? && o.Raised? && v.state == Dialing && v.pending.dials == 1 && !TimerWillDial(v))
  {
  }

  lemma DialKeepsSettledIff(c: Config, v: View, e: Event)
    requires Settled(v) && (e.PlaceCall? || e.ReconnectTimer?)
    ensures Settled(Step(c, v, e)) <==> !Sticks(c, v, e)
  {
  }

  lemma LossKeepsSettled(c: Config, v: View, e: Event)
    requires Settled(v) && EndsCalls(e)
    ensures Settled(Step(c, v, e))
  {
  }

  lemma AudioKeepsSettled(c: Config, v: View, e: Event)
    requires Settled(v) && (e.SendTick? || e.Receive? || e.Captured?)
    ensures Settled(Step(c, v, e))
  {
  }

  /** Never dialling with nothing pending, except after exactly the steps that stick. */
  lemma {:induction false} StepKeepsSettledIff(c: Config, v: View, e: Event)
    requires Settled(v)
    requires e.RejectCall? ==> Resting(v)
    ensures Settled(Step(c, v, e)) <==> !Sticks(c, v, e)
  {
    if IsAnswer(e) {
      AnswerConcludes(c, v, e);
      OutcomeKeepsSettledIff(c, v, e, OutcomeOf(c, v, e));
      if e.Connected? && v.pending.dials > 0 {
        ConnectedRaisesExactly(c, v, e);
      }
    } else if e.PlaceCall? || e.ReconnectTimer? {
      DialKeepsSettledIff(c, v, e);
    } else if EndsCalls(e) {
      LossKeepsSettled(c, v, e);
    } else if e.SendTick? || e.Receive? || e.Captured? {
      AudioKeepsSettled(c, v, e);
    }
  }

  /** No button is pressed that the window does not offer, and no step sticks. */
  ghost predicate NoneSticks(c: Config, v: View, events: seq<Event>)
    decreases |events|
  {
    events == [] || (
      && (events[0].RejectCall? ==> Resting(v))
      && !Sticks(c, v, events[0])
      && NoneSticks(c, Step(c, v, events[0]), events[1..]))
  }

  lemma {:induction false} UnstuckStepsKeepSettled(c: Config, v: View, events: seq<Event>)
    requires Settled(v) && NoneSticks(c, v, events)
    ensures Settled(Run(c, v, events))
    decreases |events|
  {
    if events != [] {
      StepKeepsSettledIff(c, v, events[0]);
      UnstuckStepsKeepSettled(c, Step(c, v, events[0]), events[1..]);
    }
  }

  /** In such a run from the start a dialling machine always has something due that fails or dials. */
  lemma RunStaysSettled(c: Config, contacts: Contacts.Store, events: seq<Event>, m: Material)
    requires NoneSticks(c, Init(c, contacts), events)
    ensures var v := Run(c, Init(c, contacts), events);
            Settled(v) && (v.state == Dialing ==> Failing(v, Failed) || Failing(v, ReconnectTimer(m)))
  {
    UnstuckStepsKeepSettled(c, Init(c, contacts), events);
  }

  // ---------------------------------------------------------------------------
  // Idle in the end
  // ---------------------------------------------------------------------------

  /** Nothing is due any more. */
  predicate Quiet(v: View) {
    v.pending.callbacks == 0 && v.pending.timers == 0 && v.pending.dials == 0
  }

  /** The call is over or lost, or something pending is about to say so. */
  predicate Leaving(v: View) {
    v.state in {Idle, Dialing} || v.pending.callbacks + v.pending.dials > 0
  }

  /** Neither side starts, takes or answers a call. */
  predicate NoNewCall(e: Event) {
    !e.PlaceCall? && !e.IncomingCall? && !IsAnswer(e)
  }

  lemma LossLeaves(c: Config, v: View, e: Event)
    requires EndsCalls(e) && Leaving(v)
    ensures Leaving(Step(c, v, e))
  {
  }

  lemma StepLeaves(c: Config, v: View, e: Event)
    requires Settled(v) && Leaving(v) && NoNewCall(e)
    ensures Leaving(Step(c, v, e))
    ensures v.state in {Idle, Dialing} ==>
              && Posted(c, v, e) + Step(c, v, e).pending.orphans <= v.pending.orphans
              && Step(c, v, e).state in {Idle, Dialing}
  {
    if EndsCalls(e) {
      LossLeaves(c, v, e);
    }
  }

  /**
   * If every dial fails and nobody calls, the bad news is bounded by the measure and by the disconnects posted on the
   * way, of which a machine that is not in a call gets no more than reads were left behind; and once nothing is due any
   * more a machine that was dialling, or had a dial or a disconnect to hear of, is idle.
   */
  lemma {:induction false} FailingRunEndsIdle(c: Config, v: View, events: seq<Event>)
    requires Settled(v) && Leaving(v) && NoneSticks(c, v, events)
    requires forall i :: 0 <= i < |events| ==> NoNewCall(events[i])
    ensures var w := Run(c, v, events);
            && FailingOver(c, v, events) + Measure(c, w) <= Measure(c, v) + PostedOver(c, v, events)
            && (v.state in {Idle, Dialing} ==> PostedOver(c, v, events) <= v.pending.orphans)
            && (Quiet(w) ==> w.state == Idle)
    decreases |events|
  {
    if events != [] {
      StepMeasure(c, v, events[0]);
      StepLeaves(c, v, events[0]);
      StepKeepsSettledIff(c, v, events[0]);
      FailingRunEndsIdle(c, Step(c, v, events[0]), events[1..]);
    }
  }

  // ---------------------------------------------------------------------------
  // Steps that stick exist
  // ---------------------------------------------------------------------------

  /** A peer without an identity offers a key that the exchange refuses. */
  lemma RefusedExchangeSticks(c: Config, contacts: Contacts.Store, address: string, m: Material, key: Key32)
    requires !CannotBuild(c, Init(c, contacts), m) && c.suite.exchange(m.private, key).None?
    ensures var v := Run(c, Init(c, contacts), [PlaceCall(address, m), Connected(0, key, 0)]);
            v.state == Dialing && Quiet(v)
  {
    var v := Step(c, Init(c, contacts), PlaceCall(address, m));
    assert v.pending == Pending(0, 0, 1, 0, 0, 0) && v.keys.private == Some(m.private);
    var w := RunTwo(c, Init(c, contacts), PlaceCall(address, m), Connected(0, key, 0));
  }

  /** The same key from a caller: the answer raises, and a call that nobody can take or turn away goes on ringing. */
  lemma RefusedExchangeRaises(c: Config, contacts: Contacts.Store, address: string, sock: nat, m: Material, key: Key32,
                              now: int)
    requires c.suite.exchange(m.private, key).None?
    ensures var ring, answer := IncomingCall(Incoming(sock, key, address)), AcceptCall(m, now, true);
            var v, w := Run(c, Init(c, contacts), [ring]), Run(c, Init(c, contacts), [ring, answer]);
            && Lifecycle(v) && AnswerRaises(c, v, answer)
            && w.state == Ringing && w.call.incoming.None? && w.keys.private.Some? && !Lifecycle(w)
  {
    var ring, answer := IncomingCall(Incoming(sock, key, address)), AcceptCall(m, now, true);
    var v := Step(c, Init(c, contacts), ring);
    assert [ring][1..] == [] && Run(c, Init(c, contacts), [ring]) == v;
    assert VerifyPeer(c.suite, now, contacts, key, address).ephemeral == Some(key);
    AnswerRaisesExactly(c, v, answer);
    AnswerConcludes(c, v, answer);
    var w := RunTwo(c, Init(c, contacts), ring, answer);
  }

  /** Our own address is too long for a handshake. */
  lemma LongAddressSticks(c: Config, contacts: Contacts.Store, local: string, address: string, m: Material)
    requires FixedSizes(c.suite) && |c.identityPrivate| == 32
    requires local != "" && |c.suite.utf8Encode(local)| > 0xFFFF
    ensures var v := Run(c, Init(c, contacts), [SetLocalAddress(local), PlaceCall(address, m)]);
            v.state == Dialing && Quiet(v)
  {
    BuildSucceedsIff(c.suite, c.identityPrivate, c.suite.publicOf(m.private), m.nonce, Some(local));
    var w := RunTwo(c, Init(c, contacts), SetLocalAddress(local), PlaceCall(address, m));
  }
}
