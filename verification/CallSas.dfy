/** The SAS gate: nothing but silence leaves, and nothing is played, until the user has confirmed the words. */
module CallSas {
  import opened Wrappers
  import opened Bytes
  import opened CallModel
  import opened CallOutcomes
  import opened CallLifecycle
  import opened CallOrderly
  import opened CallNonces
  import Contacts

  ghost predicate NoFrames(queue: seq<Slot>) {
    forall i :: 0 <= i < |queue| ==> queue[i].Stop?
  }

  /** While the gate is shut a live sending loop has no captured frame to send. */
  ghost predicate Gated(c: Config, v: View) {
    && (!c.requireSas ==> v.link.sasConfirmed)
    && (!v.link.sasConfirmed && v.pending.senders > 0 ==> NoFrames(v.queue))
  }

  /** What a step with the gate shut does to the outside: silence at most, and no sound. */
  ghost predicate Withheld(v: View, w: View) {
    && w.history.played == v.history.played
    && |w.history.wire| >= |v.history.wire|
    && w.history.wire[..|v.history.wire|] == v.history.wire
    && forall i :: |v.history.wire| <= i < |w.history.wire| ==> w.history.wire[i].pcm == SILENCE
  }

  ghost predicate NoConfirmation(events: seq<Event>) {
    forall i :: 0 <= i < |events| ==> !events[i].ConfirmSas?
  }

  lemma OutcomeKeepsGate(c: Config, v: View, e: Event, o: Outcome)
    requires IsAnswer(e) && Fits(v, e, o) && Gated(c, v)
    ensures Gated(c, Conclude(c, v, o)) && Withheld(v, Conclude(c, v, o))
    ensures Conclude(c, v, o).link.sasConfirmed ==> v.link.sasConfirmed || !c.requireSas
  {
  }

  lemma AudioKeepsGate(c: Config, v: View, e: Event)
    requires (e.SendTick? || e.Receive? || e.Captured?) && Gated(c, v)
    ensures Gated(c, Step(c, v, e))
    ensures Step(c, v, e).link.sasConfirmed == v.link.sasConfirmed
    ensures !v.link.sasConfirmed ==> Withheld(v, Step(c, v, e))
  {
  }

  lemma LossKeepsGate(c: Config, v: View, e: Event)
    requires EndsCalls(e) && Gated(c, v)
    ensures Gated(c, Step(c, v, e))
    ensures !v.link.sasConfirmed ==> !Step(c, v, e).link.sasConfirmed && Withheld(v, Step(c, v, e))
  {
  }

  lemma StepKeepsGate(c: Config, v: View, e: Event)
    requires Gated(c, v)
    ensures Gated(c, Step(c, v, e))
    ensures !v.link.sasConfirmed && !e.ConfirmSas? ==>
              !Step(c, v, e).link.sasConfirmed && Withheld(v, Step(c, v, e))
  {
    if IsAnswer(e) {
      AnswerConcludes(c, v, e);
      OutcomeKeepsGate(c, v, e, OutcomeOf(c, v, e));
    } else if e.SendTick? || e.Receive? || e.Captured? {
      AudioKeepsGate(c, v, e);
    } else if EndsCalls(e) {
      LossKeepsGate(c, v, e);
    }
  }

  lemma {:induction false} RunKeepsGate(c: Config, v: View, events: seq<Event>)
    requires Gated(c, v)
    ensures Gated(c, Run(c, v, events))
    decreases |events|
  {
    if events != [] {
      StepKeepsGate(c, v, events[0]);
      RunKeepsGate(c, Step(c, v, events[0]), events[1..]);
    }
  }

  lemma {:induction false} WithheldRun(c: Config, v: View, events: seq<Event>)
    requires Gated(c, v) && !v.link.sasConfirmed
    requires NoConfirmation(events)
    ensures Withheld(v, Run(c, v, events)) && !Run(c, v, events).link.sasConfirmed
    decreases |events|
  {
    if events != [] {
      var w := Step(c, v, events[0]);
      StepKeepsGate(c, v, events[0]);
      WithheldRun(c, w, events[1..]);
      var end := Run(c, w, events[1..]);
      assert end.history.wire[..|v.history.wire|] == w.history.wire[..|v.history.wire|];
      forall i | |v.history.wire| <= i < |end.history.wire| ensures end.history.wire[i].pcm == SILENCE {
        if i < |w.history.wire| {
          assert end.history.wire[i] == end.history.wire[..|w.history.wire|][i];
        }
      }
    }
  }

  /**
   * With gating on, after any run and any teardown: until the next confirmation nothing received is played and every
   * packet sent carries silence, through any number of reconnects, new calls and duplicate callbacks.
   */
  lemma {:induction false} SasGate(c: Config, contacts: Contacts.Store, before: seq<Event>, events: seq<Event>)
    requires c.requireSas
    requires NoConfirmation(events)
    ensures var torn := Teardown(c, Run(c, Init(c, contacts), before));
            Withheld(torn, Run(c, torn, events))
    ensures var v := Run(c, Init(c, contacts), before);
            !v.link.sasConfirmed ==> Withheld(v, Run(c, v, events))
  {
    RunKeepsGate(c, Init(c, contacts), before);
    var v := Run(c, Init(c, contacts), before);
    WithheldRun(c, Teardown(c, v), events);
    if !v.link.sasConfirmed {
      WithheldRun(c, v, events);
    }
  }

  // ---------------------------------------------------------------------------
  // Every session has words of its own
  // ---------------------------------------------------------------------------

  /** In a call that has sent nothing yet, the gate open, the next captured frame is the next packet. */
  lemma CapturedGoesOut(c: Config, v: View, pcm: Bytes, opus: Bytes)
    requires v.state == InCall && v.queue == [] && v.link.sasConfirmed && v.pending.senders > 0
    requires v.link.sendRunning && v.link.sock.Some? && v.keys.send.Some? && v.link.sendSeq == 0
    requires AudioPayload(c.suite, v.keys.send.value, 0, opus).Some?
    ensures var w := Run(c, v, [Captured(pcm), SendTick(Some(opus), true)]);
            && w.history.wire == v.history.wire + [Sent(v.keys.send.value, 0, pcm, opus, true)]
            && w.history.shownSas == v.history.shownSas
  {
    var w := RunTwo(c, v, Captured(pcm), SendTick(Some(opus), true));
  }

  lemma InstallKeepsGate(c: Config, v: View, e: Event)
    requires Installs(c, v, e)
    ensures Step(c, v, e).state == InCall && Step(c, v, e).link.sasConfirmed == v.link.sasConfirmed
  {
    AnswerConcludes(c, v, e);
  }

  /** Keys installed while the gate is open: the next captured frame goes out under them. */
  lemma OpenGateSends(c: Config, v: View, e: Event, pcm: Bytes, opus: Bytes)
    requires Installs(c, v, e) && v.link.sasConfirmed && pcm != SILENCE
    requires AudioPayload(c.suite, OutcomeOf(c, v, e).keys.send, 0, opus).Some?
    ensures !Withheld(Step(c, v, e), Run(c, Step(c, v, e), [Captured(pcm), SendTick(Some(opus), true)]))
  {
    var w := Step(c, v, e);
    OtherStepsSendNothing(c, v, e);
    InstallKeepsGate(c, v, e);
    CapturedGoesOut(c, w, pcm, opus);
    var end := Run(c, w, [Captured(pcm), SendTick(Some(opus), true)]);
    assert end.history.wire[|w.history.wire|].pcm == pcm;
  }

  /**
   * A session whose keys are installed in any reachable state is withheld until the user confirms, whatever happens in
   * it, if and only if the gate is shut when they are installed.
   */
  lemma {:induction false} SessionWithheldIff(c: Config, contacts: Contacts.Store, before: seq<Event>, e: Event,
                                              pcm: Bytes, opus: Bytes)
    requires Installs(c, Run(c, Init(c, contacts), before), e) && pcm != SILENCE
    requires AudioPayload(c.suite, OutcomeOf(c, Run(c, Init(c, contacts), before), e).keys.send, 0, opus).Some?
    ensures var v := Run(c, Init(c, contacts), before);
            var w := Step(c, v, e);
            (forall events :: NoConfirmation(events) ==> Withheld(w, Run(c, w, events))) <==> !v.link.sasConfirmed
  {
    var v := Run(c, Init(c, contacts), before);
    if v.link.sasConfirmed {
      OpenGateSends(c, v, e, pcm, opus);
      assert NoConfirmation([Captured(pcm), SendTick(Some(opus), true)]);
    } else {
      RunKeepsGate(c, Init(c, contacts), before);
      StepKeepsGate(c, v, e);
      forall events | NoConfirmation(events) ensures Withheld(Step(c, v, e), Run(c, Step(c, v, e), events)) {
        WithheldRun(c, Step(c, v, e), events);
      }
    }
  }

  // ---------------------------------------------------------------------------
  // Orderly runs
  // ---------------------------------------------------------------------------

  /** An open gate belongs to the call that is on. */
  predicate OpenInCallOnly(c: Config, v: View) {
    c.requireSas && v.link.sasConfirmed ==> v.state == InCall
  }

  lemma OutcomeOpensNothing(c: Config, v: View, e: Event, o: Outcome)
    requires IsAnswer(e) && Fits(v, e, o) && OpenInCallOnly(c, v)
    ensures OpenInCallOnly(c, Conclude(c, v, o))
  {
  }

  lemma TurnOpensNothing(c: Config, v: View, e: Event)
    requires (e.SendTick? || e.Receive? || e.Captured?) && OpenInCallOnly(c, v)
    ensures OpenInCallOnly(c, Step(c, v, e))
  {
  }

  lemma LossOpensNothing(c: Config, v: View, e: Event)
    requires EndsCalls(e) && OpenInCallOnly(c, v)
    ensures OpenInCallOnly(c, Step(c, v, e))
  {
  }

  lemma StepKeepsOpenInCall(c: Config, v: View, e: Event)
    requires OpenInCallOnly(c, v) && (e.ConfirmSas? ==> v.state == InCall) && (e.RejectCall? ==> Resting(v))
    ensures OpenInCallOnly(c, Step(c, v, e))
  {
    if IsAnswer(e) {
      AnswerConcludes(c, v, e);
      OutcomeOpensNothing(c, v, e, OutcomeOf(c, v, e));
    } else if EndsCalls(e) {
      LossOpensNothing(c, v, e);
    } else if e.SendTick? || e.Receive? || e.Captured? {
      TurnOpensNothing(c, v, e);
    }
  }

  /** The button that confirms the words is pressed in calls only, as the window offers it. */
  ghost predicate ConfirmsInCalls(c: Config, v: View, events: seq<Event>)
    decreases |events|
  {
    events == [] || (
      && (events[0].ConfirmSas? ==> v.state == InCall)
      && ConfirmsInCalls(c, Step(c, v, events[0]), events[1..]))
  }

  lemma {:induction false} OrderlyRunOpensInCall(c: Config, v: View, events: seq<Event>)
    requires Calm(v) && AllOrderly(c, v, events) && ConfirmsInCalls(c, v, events) && OpenInCallOnly(c, v)
    ensures Calm(Run(c, v, events)) && OpenInCallOnly(c, Run(c, v, events))
    decreases |events|
  {
    if events != [] {
      OrderlyStep(c, v, events[0]);
      StepKeepsOpenInCall(c, v, events[0]);
      OrderlyRunOpensInCall(c, Step(c, v, events[0]), events[1..]);
    }
  }

  /** After an orderly run every new session, a re-dialled one too, is withheld until its own words are confirmed. */
  lemma {:induction false} OrderlySessionWithheld(c: Config, contacts: Contacts.Store, before: seq<Event>, e: Event,
                                                  events: seq<Event>)
    requires c.requireSas && AllOrderly(c, Init(c, contacts), before) && ConfirmsInCalls(c, Init(c, contacts), before)
    requires Installs(c, Run(c, Init(c, contacts), before), e) && NoConfirmation(events)
    ensures var w := Step(c, Run(c, Init(c, contacts), before), e);
            Withheld(w, Run(c, w, events))
  {
    var v := Run(c, Init(c, contacts), before);
    OrderlyRunOpensInCall(c, Init(c, contacts), before);
    RunKeepsGate(c, Init(c, contacts), before);
    AnswerConcludes(c, v, e);
    StepKeepsGate(c, v, e);
    WithheldRun(c, Step(c, v, e), events);
  }
}
