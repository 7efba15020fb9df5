/**
 * How an answer can end, proved once: what accept_call and _on_outgoing_connected have changed by the time they clean
 * up, raise or enter the call.
 */
module CallOutcomes {
  import opened Wrappers
  import opened Bytes
  import opened CallModel

  /** The user answers a caller, or a dial is answered. */
  predicate IsAnswer(e: Event) {
    e.AcceptCall? || e.Connected?
  }

  function OutcomeOf(c: Config, v: View, e: Event): Outcome
    requires IsAnswer(e)
  {
    match e
    case AcceptCall(m, now, sent) => AcceptOutcome(c, v, m, now, sent)
    case Connected(sock, payload, now) => ConnectedOutcome(c, v, sock, payload, now)
  }

  /** What has changed when the end of an answer is decided: everything else is as it was. */
  predicate Prepared(v: View, x: View) {
    && x.state == v.state && x.local == v.local && x.queue == v.queue
    && x.link == v.link.(myPublic := x.link.myPublic)
    && x.keys == v.keys.(private := x.keys.private)
    && x.pending == v.pending.(dials := x.pending.dials)
    && x.history == v.history.(leaks := x.history.leaks, handshake := x.history.handshake)
    && x.call.peer == v.call.peer && x.call.busy == v.call.busy && x.call.attempts <= v.call.attempts
  }

  /** Accepting takes the waiting caller and a new private key. */
  predicate Accepting(v: View, x: View) {
    && v.state == Ringing && v.call.incoming.Some?
    && x.pending == v.pending && x.keys.private.Some?
    && x.history.leaks == v.history.leaks + Count(v.keys.private)
    && x.call == v.call.(isCaller := false, userEnded := false, attempts := 0, reconnecting := false, incoming := None,
                         pendingIdentity := x.call.pendingIdentity)
  }

  /** A dial that reports is one dial less, and touches no key. */
  predicate Connecting(v: View, x: View, entered: bool) {
    && v.pending.dials > 0 && x.pending.dials == v.pending.dials - 1
    && x.keys == v.keys && x.history == v.history && x.link == v.link
    && x.call == v.call.(pendingIdentity := x.call.pendingIdentity,
                         attempts := if entered then 0 else v.call.attempts,
                         reconnecting := if entered then false else v.call.reconnecting)
    && (entered ==> v.keys.private.Some?)
  }

  lemma ReplyPrepares(c: Config, v: View, sock: nat, ephemeral: Option<Bytes>, m: Material, sent: bool)
    ensures var o := ReplyOutcome(c, v, sock, ephemeral, m, sent);
            !o.Ignored? && o.at == v.(history := v.history.(handshake := o.at.history.handshake))
  {
  }

  lemma DialPrepares(c: Config, v: View, sock: nat, ephemeral: Option<Bytes>)
    ensures var o := DialOutcome(c, v, sock, ephemeral);
            && !o.Ignored? && (!o.Entered? ==> o.at == v)
            && (o.Entered? ==>
                  v.keys.private.Some? && o.at == v.(call := v.call.(reconnecting := false, attempts := 0)))
  {
  }

  lemma AcceptPrepares(c: Config, v: View, m: Material, now: int, sent: bool)
    ensures var o := AcceptOutcome(c, v, m, now, sent);
            && (o.Ignored? <==> v.state != Ringing || v.call.incoming.None?)
            && (!o.Ignored? ==> Prepared(v, o.at) && Accepting(v, o.at))
  {
    if v.state == Ringing && v.call.incoming.Some? {
      var info := v.call.incoming.value;
      var (verdict, w) := Verify(c, TakeIncoming(c, v, m), info.payload, info.address, now);
      ReplyPrepares(c, w, info.sock, verdict.ephemeral, m, sent);
    }
  }

  lemma ConnectedPrepares(c: Config, v: View, sock: nat, payload: Bytes, now: int)
    ensures var o := ConnectedOutcome(c, v, sock, payload, now);
            && (o.Ignored? <==> v.pending.dials == 0)
            && (!o.Ignored? ==> Prepared(v, o.at) && Connecting(v, o.at, o.Entered?))
  {
    if v.pending.dials > 0 {
      var address := PeerAddress(v.call);
      var (verdict, w) := Verify(c, LoseDial(v), payload, address, now);
      assert Prepared(v, w) && Connecting(v, w, false);
      DialPrepares(c, w, sock, verdict.ephemeral);
    }
  }

  /** What is known of an outcome without taking the two functions apart again. */
  predicate Fits(v: View, e: Event, o: Outcome)
    requires IsAnswer(e)
  {
    && (o.Ignored? <==> if e.AcceptCall? then v.state != Ringing || v.call.incoming.None? else v.pending.dials == 0)
    && (!o.Ignored? ==>
          && Prepared(v, o.at)
          && (if e.AcceptCall? then Accepting(v, o.at) else Connecting(v, o.at, o.Entered?)))
  }

  /** The one place where they are taken apart. */
  lemma AnswerConcludes(c: Config, v: View, e: Event)
    requires IsAnswer(e)
    ensures Step(c, v, e) == Conclude(c, v, OutcomeOf(c, v, e))
    ensures Fits(v, e, OutcomeOf(c, v, e))
  {
    match e
    case AcceptCall(m, now, sent) => AcceptPrepares(c, v, m, now, sent);
    case Connected(sock, payload, now) => ConnectedPrepares(c, v, sock, payload, now);
  }
}
