/** Trust on first use over whole runs of the call manager. */
module CallTrust {
  import opened Wrappers
  import opened Bytes
  import opened Protocol
  import opened Crypto
  import opened PeerVerification
  import opened CallModel
  import opened CallOutcomes
  import opened CallNonces
  import opened Primitives
  import Contacts

  /** The change a step makes to the contact store, if any. */
  function ContactChange(c: Config, v: View, e: Event): Option<Contacts.Change> {
    match e
    case RenameContact(a, name) => Some(Contacts.Rename(a, name))
    case RemoveContact(a) => Some(Contacts.RemoveContact(a))
    case AcceptCall(m, now, sent) =>
      if v.state != Ringing || v.call.incoming.None? then None
      else VerificationChange(c, v.call.incoming.value.payload, v.call.incoming.value.address, now)
    case Connected(sock, payload, now) =>
      if v.pending.dials == 0 then None
      else VerificationChange(c, payload, PeerAddress(v.call), now)
    case _ => None
  }

  /** One check, under the pinned address, of an identity whose signature verified; nothing otherwise. */
  function VerificationChange(c: Config, payload: Bytes, address: string, now: int): Option<Contacts.Change> {
    match DecodeHandshake(c.suite, payload)
    case None => None
    case Some(h) =>
      if h.identity.None? || h.signature.None?
         || !VerifyHandshake(c.suite, now, h.identity.value, h.ephemeral, h.signature.value, h.nonce, h.address)
      then None
      else Some(Contacts.CheckPeer(PinAddress(address, h.address), h.identity.value))
  }

  function Changed(s: Contacts.Store, change: Option<Contacts.Change>): Contacts.Store {
    match change
    case None => s
    case Some(ch) => Contacts.Apply(s, ch)
  }

  /** Verifying a peer makes that one change. */
  lemma VerifyChangesContacts(c: Config, v: View, payload: Bytes, address: string, now: int)
    ensures Verify(c, v, payload, address, now).1.contacts
         == Changed(v.contacts, VerificationChange(c, payload, address, now))
  {
  }

  /** However an answer ends, the store is the one that the verification leaves. */
  lemma OutcomeContacts(c: Config, v: View, e: Event)
    requires IsAnswer(e) && !OutcomeOf(c, v, e).Ignored?
    ensures OutcomeOf(c, v, e).at.contacts
         == if e.AcceptCall?
            then Verify(c, v, v.call.incoming.value.payload, v.call.incoming.value.address, e.now).1.contacts
            else Verify(c, v, e.payload, PeerAddress(v.call), e.now).1.contacts
  {
  }

  lemma AnswerChangesContacts(c: Config, v: View, e: Event)
    requires IsAnswer(e)
    ensures Step(c, v, e).contacts == Changed(v.contacts, ContactChange(c, v, e))
  {
    AnswerConcludes(c, v, e);
    if !OutcomeOf(c, v, e).Ignored? {
      OutcomeContacts(c, v, e);
      if e.AcceptCall? {
        VerifyChangesContacts(c, v, v.call.incoming.value.payload, v.call.incoming.value.address, e.now);
      } else {
        VerifyChangesContacts(c, v, e.payload, PeerAddress(v.call), e.now);
      }
    }
  }

  /** A run of the call manager changes the store only by renames, removals and checks of verified identities. */
  lemma StepChangesContacts(c: Config, v: View, e: Event)
    ensures Step(c, v, e).contacts == Changed(v.contacts, ContactChange(c, v, e))
  {
    if IsAnswer(e) {
      AnswerChangesContacts(c, v, e);
    }
  }

  /** address is in the store in every state of the run. */
  ghost predicate StaysKnown(c: Config, v: View, address: string, events: seq<Event>)
    decreases |events|
  {
    && Contacts.Lookup(v.contacts, address).Some?
    && (events != [] ==> StaysKnown(c, Step(c, v, events[0]), address, events[1..]))
  }

  /**
   * Over any run, with any peers and any duplicate events: while an address stays known its pinned key never changes,
   * and at the end every other identity key that shows up there is a mismatch that changes nothing.
   */
  lemma {:induction false} PinsSurviveRuns(c: Config, v: View, address: string, events: seq<Event>, identity: Bytes)
    requires Contacts.DistinctAddresses(v.contacts) && StaysKnown(c, v, address, events)
    ensures var store, key := Run(c, v, events).contacts, Contacts.Lookup(v.contacts, address).value.key;
            && Contacts.DistinctAddresses(store)
            && (Contacts.Coherent(v.contacts) ==> Contacts.Coherent(store))
            && Contacts.PinnedAs(store, address, key)
            && Contacts.Check(store, address, identity)
               == (if key == Some(Hex(identity)) then Contacts.Match else Contacts.Mismatch, store)
            && (forall pinned :: key == Some(Hex(pinned)) ==>
                  Contacts.Check(store, address, identity)
                  == (if identity == pinned then Contacts.Match else Contacts.Mismatch, store))
    decreases |events|
  {
    if events != [] {
      var w, change := Step(c, v, events[0]), ContactChange(c, v, events[0]);
      StepChangesContacts(c, v, events[0]);
      if change.Some? {
        Contacts.ChangeKeepsNamesCoherent(v.contacts, change.value);
        Contacts.ChangeKeepsPin(v.contacts, address, change.value);
      }
      PinsSurviveRuns(c, w, address, events[1..], identity);
    }
    forall pinned | Contacts.Lookup(v.contacts, address).value.key == Some(Hex(pinned))
      ensures Contacts.Check(Run(c, v, events).contacts, address, identity)
           == (if identity == pinned then Contacts.Match else Contacts.Mismatch, Run(c, v, events).contacts)
    {
      Contacts.CheckComparesKeys(Run(c, v, events).contacts, address, pinned, identity);
    }
  }

  /** A refused answer leaves the store as it was and the caller idle; a dialled onion is the only one pinned. */
  lemma {:induction false} RefusedReplyPinsNothing(c: Config, v: View, sock: nat, payload: Bytes, now: int)
    requires Contacts.DistinctAddresses(v.contacts) && v.pending.dials > 0
    ensures var w, address := Step(c, v, Connected(sock, payload, now)), PeerAddress(v.call);
            && (VerifyPeer(c.suite, now, v.contacts, payload, address).ephemeral.None? ==>
                  && w.contacts == v.contacts && w.state == Idle
                  && w.keys.send.None? && w.keys.private.None?)
            && (IsValidOnionV3(address) ==>
                  forall other :: other != address ==>
                    Contacts.Lookup(w.contacts, other) == Contacts.Lookup(v.contacts, other))
  {
    VerificationPins(c.suite, now, v.contacts, payload, PeerAddress(v.call));
  }

  /** A refused request leaves the store as it was and the callee idle, without a key. */
  lemma RefusedRequestPinsNothing(c: Config, v: View, e: Event)
    requires Contacts.DistinctAddresses(v.contacts) && e.AcceptCall?
    requires v.state == Ringing && v.call.incoming.Some?
    ensures var info := v.call.incoming.value;
            VerifyPeer(c.suite, e.now, v.contacts, info.payload, info.address).ephemeral.None? ==>
              && Step(c, v, e).contacts == v.contacts
              && Step(c, v, e).state == Idle
              && Step(c, v, e).keys.send.None? && Step(c, v, e).keys.private.None?
  {
    var info := v.call.incoming.value;
    VerificationPins(c.suite, e.now, v.contacts, info.payload, info.address);
  }

  // ---------------------------------------------------------------------------
  // Forgeries, and what the user is told
  // ---------------------------------------------------------------------------

  /** A caller waits to be answered, or a dial is answered. */
  predicate Concludes(v: View, e: Event) {
    (e.AcceptCall? && v.state == Ringing && v.call.incoming.Some?) || (e.Connected? && v.pending.dials > 0)
  }

  function PayloadOf(v: View, e: Event): Bytes
    requires Concludes(v, e)
  {
    if e.AcceptCall? then v.call.incoming.value.payload else e.payload
  }

  function AddressOf(v: View, e: Event): string
    requires Concludes(v, e)
  {
    if e.AcceptCall? then v.call.incoming.value.address else PeerAddress(v.call)
  }

  function VerdictOf(c: Config, v: View, e: Event): Verdict
    requires Concludes(v, e)
  {
    VerifyPeer(c.suite, e.now, v.contacts, PayloadOf(v, e), AddressOf(v, e))
  }

  lemma RefusedAnswer(c: Config, v: View, e: Event)
    requires Concludes(v, e) && VerdictOf(c, v, e).ephemeral.None?
    ensures OutcomeOf(c, v, e).Refused?
  {
  }

  /** Whatever state a forged request or answer meets, it ends the attempt: no call, no key, no pin, nothing sent. */
  lemma {:induction false} ForgeryEntersNothing(c: Config, v: View, e: Event)
    requires Concludes(v, e) && Forged(c.suite, PayloadOf(v, e))
    ensures var w := Step(c, v, e);
            && w.state == Idle && w.keys == NO_KEYS && w.contacts == v.contacts
            && w.history.sendKeys == v.history.sendKeys && w.history.wire == v.history.wire
            && w.history.shownIdentity == v.history.shownIdentity
            && !Installs(c, v, e)
  {
    ForgeryIsRefused(c.suite, e.now, v.contacts, PayloadOf(v, e), AddressOf(v, e));
    RefusedAnswer(c, v, e);
    AnswerConcludes(c, v, e);
    AnswerChangesContacts(c, v, e);
  }

  /** Every payload that is answered, or answers, in the run is forged. */
  ghost predicate OnlyForgeries(c: Config, v: View, events: seq<Event>)
    decreases |events|
  {
    events == [] || (
      && (Concludes(v, events[0]) ==> Forged(c.suite, PayloadOf(v, events[0])))
      && OnlyForgeries(c, Step(c, v, events[0]), events[1..]))
  }

  lemma StepWithoutAnswer(c: Config, v: View, e: Event)
    requires Contacts.DistinctAddresses(v.contacts) && (Concludes(v, e) ==> Forged(c.suite, PayloadOf(v, e)))
    ensures var w := Step(c, v, e);
            && w.history.sendKeys == v.history.sendKeys && Contacts.DistinctAddresses(w.contacts)
            && forall entry :: entry in w.contacts ==>
                 exists o :: o in v.contacts && o.address == entry.address && o.key == entry.key
  {
    if Concludes(v, e) {
      ForgeryEntersNothing(c, v, e);
    } else {
      if e.SendTick? {
        SendTickKeepsSendKeys(c, v, e);
      } else {
        OtherStepsSendNothing(c, v, e);
      }
      StepChangesContacts(c, v, e);
      assert !IsAnswer(e) || OutcomeOf(c, v, e).Ignored?;
      if e.RenameContact? && Contacts.Lookup(v.contacts, e.address).Some? {
        Contacts.RenamedMembers(v.contacts, Contacts.Lookup(v.contacts, e.address).value.KeyText(), e.name);
      } else if e.RemoveContact? && Contacts.Lookup(v.contacts, e.address).Some? {
        Contacts.WithoutMembers(v.contacts, Contacts.Lookup(v.contacts, e.address).value);
      }
    }
  }

  lemma SendTickKeepsSendKeys(c: Config, v: View, e: Event)
    requires e.SendTick?
    ensures Step(c, v, e).history.sendKeys == v.history.sendKeys
  {
  }

  /** Over any run in which all payloads are forged no session starts, and every pin at the end was there before. */
  lemma {:induction false} ForgeriesEnterNoCall(c: Config, v: View, events: seq<Event>)
    requires Contacts.DistinctAddresses(v.contacts) && OnlyForgeries(c, v, events)
    ensures var w := Run(c, v, events);
            && w.history.sendKeys == v.history.sendKeys
            && forall entry :: entry in w.contacts ==>
                 exists o :: o in v.contacts && o.address == entry.address && o.key == entry.key
    decreases |events|
  {
    if events != [] {
      StepWithoutAnswer(c, v, events[0]);
      ForgeriesEnterNoCall(c, Step(c, v, events[0]), events[1..]);
    }
  }

  lemma EnteredWasAccepted(c: Config, v: View, e: Event)
    requires Installs(c, v, e)
    ensures Concludes(v, e) && VerdictOf(c, v, e).ephemeral == Some(OutcomeOf(c, v, e).ephemeral)
    ensures VerdictOf(c, v, e).outcome.Some? ==>
              OutcomeOf(c, v, e).at.call.pendingIdentity == VerdictOf(c, v, e).outcome
  {
  }

  /**
   * A session starts only with the key of an anonymous payload, or with one that the named identity has recently
   * signed; and the user is shown who that is, with the status that the pins of the moment give.
   */
  lemma {:induction false} SessionPeerIsShown(c: Config, v: View, e: Event)
    requires Contacts.DistinctAddresses(v.contacts) && Installs(c, v, e)
    ensures Concludes(v, e)
    ensures var h := DecodeHandshake(c.suite, PayloadOf(v, e));
            && h.Some? && OutcomeOf(c, v, e).ephemeral == h.value.ephemeral
            && (Anonymous(h.value) || (SignatureHolds(c.suite, h.value) && Recent(h.value, e.now)))
    ensures VerdictOf(c, v, e).outcome.Some?
    ensures Step(c, v, e).history.shownIdentity == VerdictOf(c, v, e).outcome
  {
    EnteredWasAccepted(c, v, e);
    AcceptedExactly(c.suite, e.now, v.contacts, PayloadOf(v, e), AddressOf(v, e));
    ToldExactly(c.suite, e.now, v.contacts, PayloadOf(v, e), AddressOf(v, e));
    AnswerConcludes(c, v, e);
  }

  /** With signatures nobody else can make, the session key comes from a handshake that the named identity has made. */
  lemma {:induction false} SessionPeerIsGenuine(c: Config, v: View, e: Event, identity: Bytes, made: seq<Handshake>)
    requires Contacts.DistinctAddresses(v.contacts) && Installs(c, v, e)
    requires Utf8RoundTrips(c.suite) && SignsOnly(c.suite, identity, made)
    requires Concludes(v, e)
    requires var h := DecodeHandshake(c.suite, PayloadOf(v, e));
             h.Some? && !Anonymous(h.value) && h.value.identity == Some(identity)
    ensures exists i :: 0 <= i < |made| && OutcomeOf(c, v, e).ephemeral == made[i].ephemeral && Recent(made[i], e.now)
  {
    EnteredWasAccepted(c, v, e);
    var i := AcceptedWasMade(c.suite, e.now, v.contacts, PayloadOf(v, e), AddressOf(v, e), identity, made);
  }

  /** A caller that reaches us over the loopback address is pinned under the onion address that it has signed. */
  lemma {:induction false} CallerIsPinned(c: Config, v: View, e: Event)
    requires Contacts.DistinctAddresses(v.contacts) && e.AcceptCall? && Installs(c, v, e)
    requires Concludes(v, e)
    requires var h := DecodeHandshake(c.suite, PayloadOf(v, e));
             && h.Some? && !Anonymous(h.value) && h.value.address.Some? && IsValidOnionV3(h.value.address.value)
    requires !IsValidOnionV3(AddressOf(v, e))
    ensures var h, w := DecodeHandshake(c.suite, PayloadOf(v, e)).value, Step(c, v, e);
            var onion := h.address.value;
            && (Contacts.Lookup(v.contacts, onion).None? ==>
                  Contacts.PinnedAs(w.contacts, onion, Some(Hex(h.identity.value))))
            && (Contacts.Lookup(v.contacts, onion).Some? ==>
                  Contacts.Lookup(w.contacts, onion) == Contacts.Lookup(v.contacts, onion))
            && (forall other :: other != onion ==>
                  Contacts.Lookup(w.contacts, other) == Contacts.Lookup(v.contacts, other))
  {
    var h := DecodeHandshake(c.suite, PayloadOf(v, e)).value;
    EnteredWasAccepted(c, v, e);
    AcceptedExactly(c.suite, e.now, v.contacts, PayloadOf(v, e), AddressOf(v, e));
    AnswerChangesContacts(c, v, e);
    Contacts.CheckPins(v.contacts, h.address.value, h.identity.value);
  }
}
