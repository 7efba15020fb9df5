/** The call manager seen as a diagram: which steps move it where, and which end a loop or report a drop. */
module CallTransitions {
  import opened Wrappers
  import opened Bytes
  import opened Protocol
  import opened CallModel
  import opened CallOutcomes
  import opened CallLifecycle
  import opened CallNonces
  import opened CallReconnect

  // ---------------------------------------------------------------------------
  // States
  // ---------------------------------------------------------------------------

  /** The call, or the attempt at one, is over. */
  predicate Ends(c: Config, v: View, e: Event) {
    match e
    case CancelCall(_) => true
    case RejectCall => true
    case EndCall => v.state == InCall || v.state == Connecting
    case Rejected => v.pending.dials > 0
    case Failed => v.pending.dials > 0 && !Redials(c, v, e)
    case TimedOut => v.pending.dials > 0 && !Redials(c, v, e)
    case DisconnectCallback => v.pending.callbacks > 0 && v.state != Idle && !Redials(c, v, e)
    case _ => IsAnswer(e) && OutcomeOf(c, v, e).Refused?
  }

  /** Where a step leads; from anywhere, and nowhere else. */
  function Target(c: Config, v: View, e: Event): CallState {
    if Installs(c, v, e) then InCall
    else if Ends(c, v, e) then Idle
    else if Redials(c, v, e) || (e.PlaceCall? && v.state == Idle) then Dialing
    else if e.IncomingCall? && v.state == Idle && !v.call.busy then Ringing
    else v.state
  }

  lemma OutcomeTarget(c: Config, v: View, e: Event, o: Outcome)
    requires IsAnswer(e) && Fits(v, e, o)
    ensures Conclude(c, v, o).state == if o.Entered? then InCall else if o.Refused? then Idle else v.state
  {
  }

  lemma TurnTarget(c: Config, v: View, e: Event)
    requires e.SendTick? || e.Receive? || e.Captured?
    ensures Step(c, v, e).state == v.state
  {
  }

  lemma LossTarget(c: Config, v: View, e: Event)
    requires EndsCalls(e)
    ensures Step(c, v, e).state == Target(c, v, e)
  {
  }

  /** The whole diagram: every step from every state. */
  lemma {:induction false} StateDiagram(c: Config, v: View, e: Event)
    ensures Step(c, v, e).state == Target(c, v, e)
  {
    if IsAnswer(e) {
      AnswerConcludes(c, v, e);
      OutcomeTarget(c, v, e, OutcomeOf(c, v, e));
    } else if EndsCalls(e) {
      LossTarget(c, v, e);
    } else if e.SendTick? || e.Receive? || e.Captured? {
      TurnTarget(c, v, e);
    }
  }

  /** A new caller is kept with its payload, socket and address; one that comes at another time leaves no trace. */
  lemma CallerIsKept(c: Config, v: View, info: Incoming)
    ensures var w := Step(c, v, IncomingCall(info));
            if v.state == Idle && !v.call.busy
            then w == v.(state := Ringing, call := v.call.(incoming := Some(info), peer := Some(info.address)))
            else w == v
  {
  }

  /** A connection as before the first call: nothing is left of it, no loop is to run, and the gate is armed. */
  predicate Fresh(c: Config, link: Link) {
    && link.sock.None? && link.myPublic.None? && !link.client
    && link.sendSeq == 0 && link.lastRecvSeq == -1
    && !link.sendThread && !link.sendRunning && !link.recvRunning
    && link.sasConfirmed == !c.requireSas
  }

  /** The sending loop finds the sentinel behind what still waits, if there is room for it. */
  predicate Told(v: View, w: View) {
    w.queue == if v.link.sendThread && |v.queue| < 50 then v.queue + [Stop] else v.queue
  }

  /** The connection is torn down: whatever ends a call or starts a re-dial, except turning a caller away. */
  predicate Tears(c: Config, v: View, e: Event) {
    (Ends(c, v, e) && !e.RejectCall?) || Redials(c, v, e)
  }

  lemma OutcomeTears(c: Config, v: View, e: Event, o: Outcome)
    requires IsAnswer(e) && Fits(v, e, o)
    ensures var w := Conclude(c, v, o);
            if o.Refused? then w.keys == NO_KEYS && Fresh(c, w.link) && w.call == NO_CALL && Told(v, w)
            else if o.Entered? then w.link.sock == Some(o.sock)
            else w.keys.send == v.keys.send && w.keys.recv == v.keys.recv && w.link.sock == v.link.sock
  {
  }

  lemma TurnTearsNothing(c: Config, v: View, e: Event)
    requires e.SendTick? || e.Receive? || e.Captured?
    ensures Step(c, v, e).keys == v.keys && Step(c, v, e).link.sock == v.link.sock
  {
  }

  lemma LossTears(c: Config, v: View, e: Event)
    requires EndsCalls(e)
    ensures var w := Step(c, v, e);
            if Tears(c, v, e) then
              w.keys == NO_KEYS && Fresh(c, w.link) && (Ends(c, v, e) ==> w.call == NO_CALL) && Told(v, w)
            else w.keys == v.keys && w.link == v.link
  {
  }

  lemma DialTearsNothing(c: Config, v: View, e: Event)
    requires e.PlaceCall? || e.ReconnectTimer? || e.LateEnd? || e.PingTick?
    ensures var w := Step(c, v, e);
            w.keys.send == v.keys.send && w.keys.recv == v.keys.recv && w.link.sock == v.link.sock
  {
  }

  /**
   * A teardown leaves no key, no socket and a fresh connection state, and tells the sending loop to stop; the end of a
   * call leaves no trace of it; every other step leaves socket and session keys alone, unless it installs new ones.
   */
  lemma {:induction false} TeardownIsComplete(c: Config, v: View, e: Event)
    ensures var w := Step(c, v, e);
            if Tears(c, v, e) then
              w.keys == NO_KEYS && Fresh(c, w.link) && (Ends(c, v, e) ==> w.call == NO_CALL) && Told(v, w)
            else
              Installs(c, v, e)
              || (w.keys.send == v.keys.send && w.keys.recv == v.keys.recv && w.link.sock == v.link.sock)
  {
    if IsAnswer(e) {
      AnswerConcludes(c, v, e);
      OutcomeTears(c, v, e, OutcomeOf(c, v, e));
    } else if EndsCalls(e) {
      LossTears(c, v, e);
    } else if e.SendTick? || e.Receive? || e.Captured? {
      TurnTearsNothing(c, v, e);
    } else if e.PlaceCall? || e.ReconnectTimer? || e.LateEnd? || e.PingTick? {
      DialTearsNothing(c, v, e);
    }
  }

  // ---------------------------------------------------------------------------
  // Reports and loops
  // ---------------------------------------------------------------------------

  /** The loop has a frame to send: the oldest captured one, or silence. */
  predicate FrameReady(c: Config, v: View) {
    && v.pending.senders > 0 && v.link.sendRunning && v.keys.send.Some? && v.link.sock.Some?
    && (if v.queue == [] then c.constantRate else v.queue[0].Pcm?)
  }

  /** The send of a frame fails, or the numbers under the key are used up. */
  predicate SendFails(c: Config, v: View, e: Event)
    requires e.SendTick?
  {
    && FrameReady(c, v) && e.encoded.Some?
    && (|| v.link.sendSeq >= MAX_SEQUENCE
        || (!e.sent && AudioPayload(c.suite, v.keys.send.value, v.link.sendSeq, e.encoded.value).Some?))
  }

  /** Disconnects that a step reports: the number that runs out is reported by the frame and by the loop. */
  function Reports(c: Config, v: View, e: Event): nat {
    match e
    case PingTick(alive, sent) => if v.state == InCall && v.link.sock.Some? && !(alive && sent) then 1 else 0
    case SendTick(_, _) => if !SendFails(c, v, e) then 0 else if v.link.sendSeq >= MAX_SEQUENCE then 2 else 1
    case Receive(input, _) =>
      if Receiving(v) && (input == PeerClosed || input == SocketError
                          || (input.Arrived? && input.packet.msgType == CallEnd)) then 1 else 0
    case LateEnd(closed) => if v.pending.orphans > 0 && (closed || v.link.recvRunning) then 1 else 0
    case _ => 0
  }

  lemma OutcomeReports(c: Config, v: View, e: Event, o: Outcome)
    requires IsAnswer(e) && Fits(v, e, o)
    ensures Conclude(c, v, o).pending.callbacks == v.pending.callbacks
  {
  }

  lemma SendTickReports(c: Config, v: View, e: Event)
    requires e.SendTick?
    ensures Step(c, v, e).pending.callbacks == v.pending.callbacks + Reports(c, v, e)
  {
  }

  lemma ReceiveReports(c: Config, v: View, e: Event)
    requires e.Receive?
    ensures Step(c, v, e).pending.callbacks == v.pending.callbacks + Reports(c, v, e)
  {
  }

  /** A disconnect is reported for exactly these reasons, and taken back by the callback that handles it. */
  lemma {:induction false} DisconnectsReported(c: Config, v: View, e: Event)
    ensures Step(c, v, e).pending.callbacks
         == v.pending.callbacks + Reports(c, v, e)
            - (if e.DisconnectCallback? && v.pending.callbacks > 0 then 1 else 0)
  {
    if IsAnswer(e) {
      AnswerConcludes(c, v, e);
      OutcomeReports(c, v, e, OutcomeOf(c, v, e));
    } else if e.SendTick? {
      SendTickReports(c, v, e);
    } else if e.Receive? {
      ReceiveReports(c, v, e);
    }
  }

  /** A turn ends its sending loop when the loop is told to stop, or when its send fails. */
  lemma SenderEnds(c: Config, v: View, e: Event)
    requires e.SendTick? && v.pending.senders > 0
    ensures Step(c, v, e).pending.senders
         == v.pending.senders
            - (if SendFails(c, v, e) || !v.link.sendRunning || v.keys.send.None? || v.link.sock.None?
                  || (v.queue != [] && v.queue[0].Stop?) then 1 else 0)
  {
  }

  /** A read that gives no packet ends the receiving loop, and nothing else does. */
  lemma ReceiverEnds(c: Config, v: View, e: Event)
    requires e.Receive? && Receiving(v)
    ensures Step(c, v, e).pending.receivers == v.pending.receivers - (if e.input.Arrived? then 0 else 1)
  {
  }

  /** Packets of other types than audio and the end of the call change nothing at all. */
  lemma OtherPacketsChangeNothing(c: Config, v: View, p: Packet, decoded: Option<Bytes>)
    requires p.msgType !in {AudioData, CallEnd}
    ensures Step(c, v, Receive(Arrived(p), decoded)) == v
  {
  }

  // ---------------------------------------------------------------------------
  // Hanging up
  // ---------------------------------------------------------------------------

  /** Either side ends the call, or the peer turns it down. */
  predicate HangsUp(v: View, e: Event) {
    match e
    case Receive(input, _) => Receiving(v) && input.Arrived? && input.packet.msgType == CallEnd
    case EndCall => v.state == InCall
    case CancelCall(_) => true
    case Rejected => v.pending.dials > 0
    case _ => false
  }

  /** Nobody wants this call any more, or it is not ours to dial again. */
  predicate NoWayBack(v: View) {
    v.call.userEnded || !v.call.isCaller
  }

  lemma OutcomeStaysOver(c: Config, v: View, e: Event, o: Outcome)
    requires IsAnswer(e) && Fits(v, e, o) && NoWayBack(v)
    ensures NoWayBack(Conclude(c, v, o))
  {
  }

  lemma TurnStaysOver(c: Config, v: View, e: Event)
    requires (e.SendTick? || e.Receive? || e.Captured?) && NoWayBack(v)
    ensures NoWayBack(Step(c, v, e))
  {
  }

  lemma StepStaysOver(c: Config, v: View, e: Event)
    requires NoWayBack(v) && !e.PlaceCall?
    ensures NoWayBack(Step(c, v, e)) && Scheduled(c, v, e) == 0
  {
    ScheduledOnce(c, v, e);
    if IsAnswer(e) {
      AnswerConcludes(c, v, e);
      OutcomeStaysOver(c, v, e, OutcomeOf(c, v, e));
    } else if e.SendTick? || e.Receive? || e.Captured? {
      TurnStaysOver(c, v, e);
    }
  }

  lemma {:induction false} RunStaysOver(c: Config, v: View, events: seq<Event>)
    requires NoWayBack(v) && forall i :: 0 <= i < |events| ==> !events[i].PlaceCall?
    ensures NoWayBack(Run(c, v, events)) && ScheduledOver(c, v, events) == 0
    decreases |events|
  {
    if events != [] {
      StepStaysOver(c, v, events[0]);
      RunStaysOver(c, Step(c, v, events[0]), events[1..]);
    }
  }

  lemma HangUpLeavesNoWayBack(c: Config, v: View, e: Event)
    requires HangsUp(v, e)
    ensures NoWayBack(Step(c, v, e))
    ensures e.Receive? ==> Step(c, v, e).pending.callbacks == v.pending.callbacks + 1
    ensures !e.Receive? ==> Step(c, v, e).state == Idle
  {
  }

  /**
   * Once either side has hung up nothing is dialled again until the user places the next call, whatever else happens:
   * no re-dial is scheduled, and whenever a reported disconnect is handled the machine is idle.  The peer's hang-up is
   * itself such a report.
   */
  lemma {:induction false} HangUpIsFinal(c: Config, v: View, e: Event, events: seq<Event>)
    requires HangsUp(v, e) && forall i :: 0 <= i < |events| ==> !events[i].PlaceCall?
    ensures var over := Step(c, v, e);
            var w := Run(c, over, events);
            && (e.Receive? ==> over.pending.callbacks == v.pending.callbacks + 1)
            && (!e.Receive? ==> over.state == Idle)
            && ScheduledOver(c, over, events) == 0
            && (w.pending.callbacks > 0 ==> Step(c, w, DisconnectCallback).state == Idle)
  {
    HangUpLeavesNoWayBack(c, v, e);
    RunStaysOver(c, Step(c, v, e), events);
    StateDiagram(c, Run(c, Step(c, v, e), events), DisconnectCallback);
  }
}
