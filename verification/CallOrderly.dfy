/**
 * Key hygiene: exactly which steps drop a secret that nobody has wiped, and a discipline that excludes them.  In
 * orderly runs one disconnect is outstanding at a time and nothing that an earlier call has posted outlives the start
 * of the next; then there is never more than one dial or timer, and every step is allowed.
 */
module CallOrderly {
  import opened CallModel
  import opened CallOutcomes
  import opened CallLifecycle

  // ---------------------------------------------------------------------------
  // Dropped secrets
  // ---------------------------------------------------------------------------

  /** A step replaces a secret buffer that nobody has wiped. */
  predicate Overwrites(c: Config, v: View, e: Event) {
    match e
    case PlaceCall(_, _) => v.state == Idle && v.keys.private.Some?
    case ReconnectTimer(_) => v.pending.timers > 0 && !v.call.userEnded && HasPeer(v) && v.keys.private.Some?
    case AcceptCall(_, _, _) =>
      || (v.state == Ringing && v.call.incoming.Some? && v.keys.private.Some?)
      || (OutcomeOf(c, v, e).Entered? && (v.keys.send.Some? || v.keys.recv.Some?))
    case Connected(_, _, _) => OutcomeOf(c, v, e).Entered? && (v.keys.send.Some? || v.keys.recv.Some?)
    case _ => false
  }

  lemma OutcomeLeaks(c: Config, v: View, e: Event, o: Outcome)
    requires IsAnswer(e) && Fits(v, e, o)
    ensures Conclude(c, v, o).history.leaks
         == v.history.leaks
            + (if e.AcceptCall? && !o.Ignored? then Count(v.keys.private) else 0)
            + (if o.Entered? then Count(v.keys.send) + Count(v.keys.recv) else 0)
  {
  }

  lemma TurnLeaksNothing(c: Config, v: View, e: Event)
    requires e.SendTick? || e.Receive? || e.Captured?
    ensures Step(c, v, e).history.leaks == v.history.leaks
  {
  }

  /** A secret is dropped without being wiped exactly by the steps that overwrite one. */
  lemma LeaksIffOverwrites(c: Config, v: View, e: Event)
    ensures Step(c, v, e).history.leaks > v.history.leaks <==> Overwrites(c, v, e)
    ensures Step(c, v, e).history.leaks >= v.history.leaks
  {
    if IsAnswer(e) {
      AnswerConcludes(c, v, e);
      OutcomeLeaks(c, v, e, OutcomeOf(c, v, e));
    } else if e.SendTick? || e.Receive? || e.Captured? {
      TurnLeaksNothing(c, v, e);
    }
  }

  ghost predicate NoOverwrites(c: Config, v: View, events: seq<Event>)
    decreases |events|
  {
    events == [] || (!Overwrites(c, v, events[0]) && NoOverwrites(c, Step(c, v, events[0]), events[1..]))
  }

  /** Over any run no secret is dropped unwiped if and only if no step overwrites one. */
  lemma {:induction false} CleanRunIff(c: Config, v: View, events: seq<Event>)
    ensures Run(c, v, events).history.leaks >= v.history.leaks
    ensures Run(c, v, events).history.leaks == v.history.leaks <==> NoOverwrites(c, v, events)
    decreases |events|
  {
    if events != [] {
      LeaksIffOverwrites(c, v, events[0]);
      CleanRunIff(c, Step(c, v, events[0]), events[1..]);
    }
  }

  // ---------------------------------------------------------------------------
  // One thing pending at a time
  // ---------------------------------------------------------------------------

  ghost predicate Calm(v: View) {
    && Lifecycle(v)
    && v.pending.callbacks <= 1 && v.pending.senders <= 1 && v.pending.receivers <= 1
    && v.pending.timers + v.pending.dials <= 1
    && (v.state != Dialing ==> v.pending.dials == 0)
    && (v.state == Idle && v.pending.timers > 0 ==> !HasPeer(v))
    && (v.state == Ringing ==> v.pending.timers == 0 && v.pending.callbacks == 0)
    && (v.state == Dialing ==> v.pending.callbacks == 0)
    && (v.state == Dialing && v.pending.timers == 1 ==> v.keys.private.None?)
    && (v.state == Dialing && v.pending.dials == 1 ==> v.link.client)
    && (v.state == InCall ==> v.pending.timers == 0)
  }

  /**
   * The discipline: a drop posts one callback, and a read left behind posts none while ringing or dialling; callbacks
   * and timers of an earlier call have run before the next one starts; the buttons are those the window offers; a
   * cancelled dial does not report; an answer does not raise.
   */
  ghost predicate Orderly(c: Config, v: View, e: Event) {
    && Step(c, v, e).pending.callbacks <= 1
    && (e.LateEnd? && v.state in {Dialing, Ringing} ==> Step(c, v, e).pending.callbacks == v.pending.callbacks)
    && (e.PlaceCall? || e.IncomingCall? ==> v.state == Idle ==> v.pending.callbacks == 0 && v.pending.timers == 0)
    && (e.RejectCall? ==> Resting(v))
    && (e.CancelCall? && v.pending.dials > 0 ==> e.stopped)
    && (e.AcceptCall? ==> !AnswerRaises(c, v, e))
  }

  lemma OutcomeKeepsCalm(c: Config, v: View, e: Event, o: Outcome)
    requires Calm(v) && IsAnswer(e) && Fits(v, e, o) && Lifecycle(Conclude(c, v, o))
    ensures Calm(Conclude(c, v, o))
  {
  }

  lemma OrderlySendTick(c: Config, v: View, e: Event)
    requires Calm(v) && e.SendTick? && Lifecycle(Step(c, v, e)) && Step(c, v, e).pending.callbacks <= 1
    ensures Calm(Step(c, v, e))
  {
  }

  lemma OrderlyReceive(c: Config, v: View, e: Event)
    requires Calm(v) && e.Receive? && Lifecycle(Step(c, v, e)) && Step(c, v, e).pending.callbacks <= 1
    ensures Calm(Step(c, v, e))
  {
  }

  lemma OrderlyLoss(c: Config, v: View, e: Event)
    requires Calm(v) && Orderly(c, v, e) && Lifecycle(Step(c, v, e)) && EndsCalls(e)
    ensures Calm(Step(c, v, e))
  {
  }

  lemma OrderlyDial(c: Config, v: View, e: Event)
    requires Calm(v) && Orderly(c, v, e) && Lifecycle(Step(c, v, e)) && (e.PlaceCall? || e.ReconnectTimer?)
    ensures Calm(Step(c, v, e))
  {
  }

  lemma CalmOverwritesNothing(c: Config, v: View, e: Event)
    requires Calm(v) && Orderly(c, v, e)
    ensures !Overwrites(c, v, e)
  {
    if IsAnswer(e) {
      AnswerConcludes(c, v, e);
    }
  }

  /** An orderly step keeps one thing pending at a time, is allowed, and drops no secret unwiped. */
  lemma {:induction false} OrderlyStep(c: Config, v: View, e: Event)
    requires Calm(v) && Orderly(c, v, e)
    ensures Calm(Step(c, v, e)) && Allowed(c, v, e) && !Overwrites(c, v, e)
  {
    StepKeepsLifecycleIff(c, v, e);
    CalmOverwritesNothing(c, v, e);
    if IsAnswer(e) {
      AnswerConcludes(c, v, e);
      OutcomeKeepsCalm(c, v, e, OutcomeOf(c, v, e));
    } else if e.SendTick? {
      OrderlySendTick(c, v, e);
    } else if e.Receive? {
      OrderlyReceive(c, v, e);
    } else if EndsCalls(e) {
      OrderlyLoss(c, v, e);
    } else if e.PlaceCall? || e.ReconnectTimer? {
      OrderlyDial(c, v, e);
    }
  }

  ghost predicate AllOrderly(c: Config, v: View, events: seq<Event>)
    decreases |events|
  {
    events == [] || (Orderly(c, v, events[0]) && AllOrderly(c, Step(c, v, events[0]), events[1..]))
  }

  /** Over every orderly run: one dial at a time, only allowed steps, and no secret dropped unwiped. */
  lemma {:induction false} OrderlyRun(c: Config, v: View, events: seq<Event>)
    requires Calm(v) && AllOrderly(c, v, events)
    ensures Calm(Run(c, v, events)) && AllAllowed(c, v, events) && NoOverwrites(c, v, events)
    decreases |events|
  {
    if events != [] {
      OrderlyStep(c, v, events[0]);
      OrderlyRun(c, Step(c, v, events[0]), events[1..]);
    }
  }
}
