/** Building and verifying handshakes, and pinning the peer (_build_handshake and _verify_peer_identity). */
module PeerVerification {
  import opened Wrappers
  import opened Bytes
  import opened Primitives
  import opened Protocol
  import opened Crypto
  import Contacts

  /** is_valid_onion_v3: 56 base-32 characters and ".onion"; the pattern also lets one final newline through. */
  predicate IsValidOnionV3(address: string) {
    && (|address| == 62 || (|address| == 63 && address[62] == '\n'))
    && (forall i :: 0 <= i < 56 ==> 'a' <= address[i] <= 'z' || '2' <= address[i] <= '7')
    && address[56..62] == ".onion"
  }

  predicate IsBase32(host: string) {
    |host| == 56 && forall i :: 0 <= i < 56 ==> 'a' <= host[i] <= 'z' || '2' <= host[i] <= '7'
  }

  /** Exactly 56 base-32 characters and ".onion", or that and a newline. */
  lemma {:induction false} OnionAddresses(address: string)
    ensures IsValidOnionV3(address)
       <==> exists host :: IsBase32(host) && (address == host + ".onion" || address == host + ".onion" + "\n")
  {
    if IsValidOnionV3(address) {
      var host := address[..56];
      assert IsBase32(host);
      assert address == host + address[56..62] + address[62..];
      assert address[62..] == if |address| == 63 then "\n" else "";
    }
    if host :| IsBase32(host) && (address == host + ".onion" || address == host + ".onion" + "\n") {
      assert address[..56] == host && address[56..62] == ".onion";
      assert forall i :: 0 <= i < 56 ==> address[i] == host[i];
    }
  }

  /** What the user is told about the peer. */
  datatype PeerStatus = Unsigned | InvalidSignature | Pinned(status: Contacts.Status)
  datatype PeerIdentity = PeerIdentity(status: PeerStatus, address: string, name: string)

  /** ephemeral is None when the call must not go on; outcome is None when there is nothing new to tell. */
  datatype Verdict = Verdict(ephemeral: Option<Bytes>, outcome: Option<PeerIdentity>, store: Contacts.Store)

  function BuildHandshake(s: Suite, identityPrivate: Bytes, ephemeral: Bytes, nonce: Bytes, local: Option<string>)
    : Option<Bytes>
  {
    match SignHandshake(s, identityPrivate, ephemeral, Some(nonce), local)
    case None => None
    case Some(signature) =>
      EncodeHandshake(s, Handshake(ephemeral, Some(s.identityOf(identityPrivate)), Some(signature), Some(nonce), local))
  }

  /** The address that a verified identity is pinned under. */
  function PinAddress(address: string, advertised: Option<string>): string {
    if IsValidOnionV3(address) then address
    else if advertised.Some? && IsValidOnionV3(advertised.value) then advertised.value
    else address
  }

  function VerifyPeer(s: Suite, now: int, store: Contacts.Store, payload: Bytes, address: string): Verdict {
    match DecodeHandshake(s, payload)
    case None => Verdict(None, None, store)
    case Some(h) =>
      if h.identity.None? || h.signature.None? then
        Verdict(Some(h.ephemeral), Some(PeerIdentity(Unsigned, address, "")), store)
      else if !VerifyHandshake(s, now, h.identity.value, h.ephemeral, h.signature.value, h.nonce, h.address) then
        Verdict(None, Some(PeerIdentity(InvalidSignature, address, "")), store)
      else
        var pin := PinAddress(address, h.address);
        var (status, pinned) := Contacts.Check(store, pin, h.identity.value);
        Verdict(Some(h.ephemeral),
                Some(PeerIdentity(Pinned(status), pin, Contacts.NameForKey(pinned, Hex(h.identity.value)))),
                pinned)
  }

  /** A handshake fits its payload exactly when the advertised address fits its 16-bit length. */
  lemma BuildSucceedsIff(s: Suite, identityPrivate: Bytes, ephemeral: Bytes, nonce: Bytes, local: Option<string>)
    requires FixedSizes(s) && |identityPrivate| == 32 && |ephemeral| == 32 && |nonce| == HANDSHAKE_NONCE_LEN
    ensures BuildHandshake(s, identityPrivate, ephemeral, nonce, local).Some? <==>
              (local.Some? ==> |s.utf8Encode(local.value)| <= 0xFFFF)
  {
    assert |s.sign(identityPrivate, SignedMessage(s, ephemeral, Some(nonce), local))| == 64;
    assert |s.identityOf(identityPrivate)| == 32;
  }

  /** Verifying a decoded payload rebuilds exactly the bytes that were signed when it was built. */
  lemma VerifierRebuildsSignedBytes(s: Suite, identityPrivate: Bytes, ephemeral: Bytes, nonce: Bytes,
                                    local: Option<string>)
    requires Lawful(s)
    requires BuildHandshake(s, identityPrivate, ephemeral, nonce, local).Some?
    ensures var h := DecodeHandshake(s, BuildHandshake(s, identityPrivate, ephemeral, nonce, local).value);
            && h.Some?
            && h.value.ephemeral == ephemeral
            && h.value.identity == Some(s.identityOf(identityPrivate))
            && h.value.nonce == Some(nonce) && h.value.address == local
            && h.value.signature
               == Some(s.sign(identityPrivate, SignedMessage(s, h.value.ephemeral, h.value.nonce, h.value.address)))
  {
    var signature := SignHandshake(s, identityPrivate, ephemeral, Some(nonce), local).value;
    HandshakeRoundTrip(
      s, Handshake(ephemeral, Some(s.identityOf(identityPrivate)), Some(signature), Some(nonce), local));
  }

  /** An untampered handshake is accepted within the freshness window, whatever the store and the address. */
  lemma BuiltHandshakeVerifies(s: Suite, identityPrivate: Bytes, ephemeral: Bytes, made: nat, random: Bytes,
                               local: Option<string>, now: int, store: Contacts.Store, address: string)
    requires Lawful(s) && |random| == 8 && made < 0x1_0000_0000_0000_0000
    requires BuildHandshake(s, identityPrivate, ephemeral, HandshakeNonce(made, random), local).Some?
    ensures var payload := BuildHandshake(s, identityPrivate, ephemeral, HandshakeNonce(made, random), local).value;
            var verdict := VerifyPeer(s, now, store, payload, address);
            && (verdict.ephemeral == Some(ephemeral) <==> made - MAX_SKEW <= now <= made + MAX_SKEW)
            && (verdict.ephemeral == None <==> !(made - MAX_SKEW <= now <= made + MAX_SKEW))
  {
    var nonce := HandshakeNonce(made, random);
    VerifierRebuildsSignedBytes(s, identityPrivate, ephemeral, nonce, local);
    var payload := BuildHandshake(s, identityPrivate, ephemeral, nonce, local).value;
    var signature := SignHandshake(s, identityPrivate, ephemeral, Some(nonce), local).value;
    HandshakeRoundTrip(
      s, Handshake(ephemeral, Some(s.identityOf(identityPrivate)), Some(signature), Some(nonce), local));
    FreshnessWindow(made, random, now);
    assert s.verify(s.identityOf(identityPrivate), signature, SignedMessage(s, ephemeral, Some(nonce), local));
  }

  // ---------------------------------------------------------------------------
  // Forgeries
  // ---------------------------------------------------------------------------

  /** A payload without an identity or a signature claims to be nobody. */
  predicate Anonymous(h: Handshake) {
    h.identity.None? || h.signature.None?
  }

  /** The identity has signed exactly the key, nonce and address that the payload brings. */
  predicate SignatureHolds(s: Suite, h: Handshake)
    requires !Anonymous(h)
  {
    s.verify(h.identity.value, h.signature.value, SignedMessage(s, h.ephemeral, h.nonce, h.address))
  }

  /** The clock that the nonce names is no more than two minutes from ours; the oldest form has no nonce. */
  predicate Recent(h: Handshake, now: int) {
    h.nonce.Some? ==> |h.nonce.value| >= 8 && -120 <= now - ReadBigEndian(h.nonce.value[..8]) <= 120
  }

  predicate Forged(s: Suite, payload: Bytes) {
    match DecodeHandshake(s, payload)
    case None => false
    case Some(h) => !Anonymous(h) && !SignatureHolds(s, h)
  }

  /** Exactly the anonymous payloads, and those recently signed by the identity they name, lead on to a call. */
  lemma {:induction false} AcceptedExactly(s: Suite, now: int, store: Contacts.Store, payload: Bytes, address: string)
    ensures var h, v := DecodeHandshake(s, payload), VerifyPeer(s, now, store, payload, address);
            && (v.ephemeral.Some? <==>
                  h.Some? && (Anonymous(h.value) || (SignatureHolds(s, h.value) && Recent(h.value, now))))
            && (v.ephemeral.Some? ==> v.ephemeral == Some(h.value.ephemeral))
            && (v.ephemeral.None? ==> v.store == store)
  {
  }

  /** Whatever the store and the clock say, a forged payload is refused, reported and pins nothing. */
  lemma ForgeryIsRefused(s: Suite, now: int, store: Contacts.Store, payload: Bytes, address: string)
    requires Forged(s, payload)
    ensures VerifyPeer(s, now, store, payload, address)
         == Verdict(None, Some(PeerIdentity(InvalidSignature, address, "")), store)
  {
  }

  /** Nothing verifies under the identity but the handshakes that it has made. */
  ghost predicate SignsOnly(s: Suite, identity: Bytes, made: seq<Handshake>) {
    && (forall i :: 0 <= i < |made| ==> WellSized(made[i].ephemeral, made[i].nonce))
    && forall signature, m :: s.verify(identity, signature, m) ==>
         exists i :: 0 <= i < |made| && m == SignedMessage(s, made[i].ephemeral, made[i].nonce, made[i].address)
  }

  /**
   * With signatures that nobody else can make, a payload that is accepted for an identity brings the key, the nonce and
   * the address of one handshake that this identity has made, and made within the last two minutes or the next two.
   */
  lemma {:induction false} AcceptedWasMade(s: Suite, now: int, store: Contacts.Store, payload: Bytes, address: string,
                                           identity: Bytes, made: seq<Handshake>) returns (i: nat)
    requires Utf8RoundTrips(s) && SignsOnly(s, identity, made)
    requires VerifyPeer(s, now, store, payload, address).ephemeral.Some?
    requires var h := DecodeHandshake(s, payload); h.Some? && !Anonymous(h.value) && h.value.identity == Some(identity)
    ensures var h := DecodeHandshake(s, payload).value;
            && i < |made| && made[i].ephemeral == h.ephemeral && made[i].nonce == h.nonce
            && (h.nonce.Some? ==> made[i].address == h.address)
            && Recent(made[i], now)
            && VerifyPeer(s, now, store, payload, address).ephemeral == Some(made[i].ephemeral)
  {
    var h := DecodeHandshake(s, payload).value;
    AcceptedExactly(s, now, store, payload, address);
    i :| 0 <= i < |made| && SignedMessage(s, h.ephemeral, h.nonce, h.address)
                            == SignedMessage(s, made[i].ephemeral, made[i].nonce, made[i].address);
    SignedMessageInjective(s, h.ephemeral, h.nonce, h.address, made[i].ephemeral, made[i].nonce, made[i].address);
  }

  /** What the user is told, and under which address, of a payload that is accepted. */
  lemma {:induction false} ToldExactly(s: Suite, now: int, store: Contacts.Store, payload: Bytes, address: string)
    requires Contacts.DistinctAddresses(store) && VerifyPeer(s, now, store, payload, address).ephemeral.Some?
    ensures var h, v := DecodeHandshake(s, payload).value, VerifyPeer(s, now, store, payload, address);
            && v.outcome.Some?
            && (Anonymous(h) <==> v.outcome.value.status == Unsigned)
            && (Anonymous(h) ==> v.outcome.value.address == address && v.store == store)
            && (!Anonymous(h) ==>
                  var key, pin := Some(Hex(h.identity.value)), v.outcome.value.address;
                  && (v.outcome.value.status == Pinned(Contacts.Match) <==> Contacts.PinnedAs(store, pin, key))
                  && (v.outcome.value.status == Pinned(Contacts.Mismatch) <==>
                        Contacts.Lookup(store, pin).Some? && !Contacts.PinnedAs(store, pin, key))
                  && (v.outcome.value.status == Pinned(Contacts.New) <==>
                        Contacts.Lookup(store, pin).None? && forall e :: e in store ==> e.key != key)
                  && v.outcome.value.name == Contacts.NameForKey(v.store, key.value)
                  && (IsValidOnionV3(address) ==> pin == address)
                  && (!IsValidOnionV3(address) && h.address.Some? && IsValidOnionV3(h.address.value) ==>
                        pin == h.address.value)
                  && (pin == address || Some(pin) == h.address))
  {
    var h := DecodeHandshake(s, payload).value;
    if !Anonymous(h) {
      Contacts.CheckPins(store, PinAddress(address, h.address), h.identity.value);
    }
  }

  /** An onion address is not a loopback one, so no purge takes its pin. */
  lemma PurgeKeepsOnions(store: Contacts.Store, e: Contacts.Entry)
    requires Contacts.DistinctAddresses(store) && IsValidOnionV3(e.address)
    ensures e in store ==> exists o :: o in Contacts.PurgeLoopback(store) && o.address == e.address && o.key == e.key
  {
    if e in store {
      assert e.address[0] != ':' && (e.address[0] != '1');
      assert !e.IsLoopback();
      Contacts.PurgeLoopbackEffect(store);
      Contacts.RealPinsHold(store, e);
      Contacts.RealPinsBack(Contacts.PurgeLoopback(store), (e.address, e.key));
    }
  }

  /** What one verification can do to the store: nothing when it refuses or finds no identity, else one check. */
  lemma {:induction false} VerificationPins(s: Suite, now: int, store: Contacts.Store, payload: Bytes, address: string)
    requires Contacts.DistinctAddresses(store)
    ensures var v := VerifyPeer(s, now, store, payload, address);
            && (v.ephemeral.None? ==> v.store == store)
            && (v.store != store ==>
                  && v.outcome.Some? && v.outcome.value.status.Pinned?
                  && Contacts.Lookup(store, v.outcome.value.address).None?
                  && exists identity ::
                       && v.store == Contacts.Check(store, v.outcome.value.address, identity).1
                       && Contacts.PinnedAs(v.store, v.outcome.value.address, Some(Hex(identity))))
            && (IsValidOnionV3(address) ==>
                  forall other :: other != address ==> Contacts.Lookup(v.store, other) == Contacts.Lookup(store, other))
  {
    var h := DecodeHandshake(s, payload);
    if h.Some? && h.value.identity.Some? {
      var identity := h.value.identity.value;
      Contacts.CheckPins(store, PinAddress(address, h.value.address), identity);
    }
  }
}
