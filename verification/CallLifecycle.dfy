/** What every step of the call manager keeps, and exactly which steps can break it. */
module CallLifecycle {
  import opened Protocol
  import opened Crypto
  import opened PeerVerification
  import opened CallModel
  import opened CallOutcomes
  import Contacts

  predicate Resting(v: View) {
    v.state == Idle || v.state == Ringing
  }

  /** The lifecycle invariant. */
  ghost predicate Lifecycle(v: View) {
    // keys and socket exist exactly during a call, and so do the two loops
    && (v.keys.send.Some? <==> v.state == InCall)
    && (v.keys.recv.Some? <==> v.state == InCall)
    && (v.link.sock.Some? <==> v.state == InCall)
    && (v.pending.senders > 0 || v.pending.receivers > 0 ==> v.state == InCall)
    // a caller is waiting exactly while ringing
    && (v.call.incoming.Some? <==> v.state == Ringing)
    // between calls there is no private key and no trace of an earlier call
    && (Resting(v) ==> v.keys.private.None? && !v.call.isCaller && !v.call.reconnecting && v.call.attempts == 0)
    && (v.call.userEnded ==> v.state == InCall)
    && (v.state == Dialing ==> v.call.isCaller && v.call.peer.Some?)
    // the server is busy in every call, and otherwise only while reconnecting
    && (v.state == InCall ==> v.call.busy)
    && (v.call.busy ==> v.state == InCall || (v.state == Dialing && v.call.reconnecting))
    && (v.call.reconnecting ==> v.call.isCaller)
    && (v.call.attempts > 0 ==> v.call.reconnecting)
    // declared, never entered
    && v.state != Connecting
  }

  /** Answering raises an exception after the pending call has been taken: the handshake cannot be packed, or the
      exchange refuses the peer's key. */
  predicate AnswerRaises(c: Config, v: View, e: Event)
    requires e.AcceptCall?
  {
    && v.state == Ringing && v.call.incoming.Some?
    && var info := v.call.incoming.value;
       var verdict := VerifyPeer(c.suite, e.now, v.contacts, info.payload, info.address);
       && verdict.ephemeral.Some?
       && var handshake :=
            BuildHandshake(c.suite, c.identityPrivate, c.suite.publicOf(e.material.private), e.material.nonce, v.local);
          || handshake.None?
          || |handshake.value| > MAX_PAYLOAD
          || (e.sent && DeriveSessionKeys(c.suite, e.material.private, verdict.ephemeral.value, false).None?)
  }

  /** The steps that keep the lifecycle invariant; each condition can be checked before the step. */
  predicate Allowed(c: Config, v: View, e: Event) {
    match e
    case RejectCall => Resting(v)
    case ReconnectTimer(_) => v.pending.timers > 0 && HasPeer(v) ==> !Resting(v)
    case AcceptCall(_, _, _) => !AnswerRaises(c, v, e)
    case _ => true
  }

  lemma AnswerRaisesExactly(c: Config, v: View, e: Event)
    requires e.AcceptCall?
    ensures AnswerRaises(c, v, e) <==> OutcomeOf(c, v, e).Raised?
  {
  }

  lemma OutcomeKeepsLifecycleIff(c: Config, v: View, e: Event, o: Outcome)
    requires Lifecycle(v) && IsAnswer(e) && Fits(v, e, o)
    ensures Lifecycle(Conclude(c, v, o)) <==> !(e.AcceptCall? && o.Raised?)
  {
  }

  lemma AnswerKeepsLifecycleIff(c: Config, v: View, e: Event)
    requires Lifecycle(v) && IsAnswer(e)
    ensures Lifecycle(Step(c, v, e)) <==> Allowed(c, v, e)
  {
    AnswerConcludes(c, v, e);
    OutcomeKeepsLifecycleIff(c, v, e, OutcomeOf(c, v, e));
    if e.AcceptCall? {
      AnswerRaisesExactly(c, v, e);
    }
  }

  lemma SendTickKeepsLifecycle(c: Config, v: View, e: Event)
    requires Lifecycle(v) && e.SendTick?
    ensures Lifecycle(Step(c, v, e))
  {
  }

  lemma ReceiveKeepsLifecycle(c: Config, v: View, e: Event)
    requires Lifecycle(v) && e.Receive?
    ensures Lifecycle(Step(c, v, e))
  {
  }

  /** Bad news from the network, or the user ending a call. */
  predicate EndsCalls(e: Event) {
    e.Rejected? || e.Failed? || e.TimedOut? || e.DisconnectCallback? || e.CancelCall? || e.EndCall?
  }

  lemma LossKeepsLifecycle(c: Config, v: View, e: Event)
    requires Lifecycle(v) && EndsCalls(e)
    ensures Lifecycle(Step(c, v, e))
  {
  }

  lemma DialKeepsLifecycleIff(c: Config, v: View, e: Event)
    requires Lifecycle(v) && (e.PlaceCall? || e.ReconnectTimer?)
    ensures Lifecycle(Step(c, v, e)) <==> Allowed(c, v, e)
  {
  }

  /** Exactly the allowed steps keep the invariant. */
  lemma {:induction false} StepKeepsLifecycleIff(c: Config, v: View, e: Event)
    requires Lifecycle(v)
    ensures Lifecycle(Step(c, v, e)) <==> Allowed(c, v, e)
  {
    if IsAnswer(e) {
      AnswerKeepsLifecycleIff(c, v, e);
    } else if e.SendTick? {
      SendTickKeepsLifecycle(c, v, e);
    } else if e.Receive? {
      ReceiveKeepsLifecycle(c, v, e);
    } else if EndsCalls(e) {
      LossKeepsLifecycle(c, v, e);
    } else if e.PlaceCall? || e.ReconnectTimer? {
      DialKeepsLifecycleIff(c, v, e);
    }
  }

  ghost predicate AllAllowed(c: Config, v: View, events: seq<Event>)
    decreases |events|
  {
    events == [] || (Allowed(c, v, events[0]) && AllAllowed(c, Step(c, v, events[0]), events[1..]))
  }

  lemma {:induction false} AllowedStepsKeepLifecycle(c: Config, v: View, events: seq<Event>)
    requires Lifecycle(v) && AllAllowed(c, v, events)
    ensures Lifecycle(Run(c, v, events))
    decreases |events|
  {
    if events != [] {
      StepKeepsLifecycleIff(c, v, events[0]);
      AllowedStepsKeepLifecycle(c, Step(c, v, events[0]), events[1..]);
    }
  }

  /** From start-up the invariant holds in every state of every run of allowed steps, and after no other last step. */
  lemma RunKeepsLifecycle(c: Config, contacts: Contacts.Store, events: seq<Event>, e: Event)
    requires AllAllowed(c, Init(c, contacts), events)
    ensures var v := Run(c, Init(c, contacts), events);
            Lifecycle(v) && (Lifecycle(Step(c, v, e)) <==> Allowed(c, v, e))
  {
    AllowedStepsKeepLifecycle(c, Init(c, contacts), events);
    StepKeepsLifecycleIff(c, Run(c, Init(c, contacts), events), e);
  }
}
