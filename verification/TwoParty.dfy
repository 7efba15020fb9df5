/** Two call managers and an untampered exchange of handshakes between them. */
module TwoParty {
  import opened Wrappers
  import opened Bytes
  import opened Primitives
  import opened Protocol
  import opened Crypto
  import opened PeerVerification
  import opened CallModel
  import opened CallOutcomes
  import opened CallLifecycle
  import opened CallNonces
  import opened AudioChannel
  import Contacts

  /** A handshake made at a clock reading that eight bytes can hold. */
  ghost predicate MadeAt(m: Material, made: nat) {
    made < 0x1_0000_0000_0000_0000 && m.nonce == HandshakeNonce(made, m.nonce[8..])
  }

  predicate Within(made: nat, now: int) {
    made - MAX_SKEW <= now <= made + MAX_SKEW
  }

  /** The sender's own address leaves room for the handshake in a packet. */
  ghost predicate Advertises(c: Config, v: View) {
    |c.identityPrivate| == 32 && (v.local.Some? ==> |c.suite.utf8Encode(v.local.value)| <= MAX_PAYLOAD - V3_MIN_LEN)
  }

  /** The payload that a dial or an answer sends, and that it fits a packet which reads back as sent. */
  lemma HandshakeTravels(c: Config, v: View, m: Material, t: MessageType)
    requires FixedSizes(c.suite) && Advertises(c, v)
    ensures var h := BuildHandshake(c.suite, c.identityPrivate, c.suite.publicOf(m.private), m.nonce, v.local);
            && h.Some? && |h.value| <= MAX_PAYLOAD
            && EncodePacket(Packet(t, 0, h.value)).Some?
            && FromBytes(EncodePacket(Packet(t, 0, h.value)).value) == Ok(Packet(t, 0, h.value))
  {
    BuildSucceedsIff(c.suite, c.identityPrivate, c.suite.publicOf(m.private), m.nonce, v.local);
    var h := BuildHandshake(c.suite, c.identityPrivate, c.suite.publicOf(m.private), m.nonce, v.local).value;
    PacketRoundTrip(Packet(t, 0, h), []);
    var enc := EncodePacket(Packet(t, 0, h)).value;
    assert enc + [] == enc;
  }

  /** A call starts with these keys, fresh counters, both loops and the words of the two public keys. */
  ghost predicate Begun(c: Config, v: View, keys: SessionKeys, mine: Bytes, peer: Bytes) {
    && v.state == InCall && v.keys.send == Some(keys.send) && v.keys.recv == Some(keys.recv)
    && v.link.sendSeq == 0 && v.link.lastRecvSeq == -1 && Receiving(v)
    && v.history.shownSas == Some(ComputeSas(c.suite, c.words, mine, peer))
  }

  lemma InstallBegins(c: Config, v: View, keys: SessionKeys, sock: nat, mine: Bytes, peer: Bytes)
    requires v.link.myPublic == Some(mine)
    ensures Begun(c, Install(c, v, keys, sock, peer), keys, mine, peer)
    ensures Install(c, v, keys, sock, peer).history.handshake == v.history.handshake
  {
  }

  /** In the call as the callee, with the keys of this exchange and the words of both public keys. */
  ghost predicate Answered(d: Config, local: Option<string>, v: View, m: Material, peer: Bytes) {
    && DeriveSessionKeys(d.suite, m.private, peer, false).Some?
    && Begun(d, v, DeriveSessionKeys(d.suite, m.private, peer, false).value, d.suite.publicOf(m.private), peer)
    && v.history.handshake
       == BuildHandshake(d.suite, d.identityPrivate, d.suite.publicOf(m.private), m.nonce, local)
  }

  /** The callee answers a fresh request and is in the call. */
  lemma CalleeAnswers(d: Config, w: View, m: Material, now: int, callerPrivate: Key32)
    requires FixedSizes(d.suite) && Advertises(d, w)
    requires w.state == Ringing && w.call.incoming.Some?
    requires var info := w.call.incoming.value;
             VerifyPeer(d.suite, now, w.contacts, info.payload, info.address).ephemeral
             == Some(d.suite.publicOf(callerPrivate))
    requires d.suite.exchange(m.private, d.suite.publicOf(callerPrivate)).Some?
    ensures Answered(d, w.local, Step(d, w, AcceptCall(m, now, true)), m, d.suite.publicOf(callerPrivate))
  {
    var peer := d.suite.publicOf(callerPrivate);
    HandshakeTravels(d, w, m, CallAccept);
    var o := AcceptOutcome(d, w, m, now, true);
    assert o.Entered? && o.keys == DeriveSessionKeys(d.suite, m.private, peer, false).value && o.ephemeral == peer;
    InstallBegins(d, o.at, o.keys, o.sock, d.suite.publicOf(m.private), peer);
  }

  lemma DialEnters(c: Config, v: View, sock: nat, mine: Key32, peer: Bytes)
    requires FixedSizes(c.suite) && |peer| == 32 && c.suite.exchange(mine, peer).Some?
    requires v.keys.private == Some(mine) && v.link.myPublic == Some(c.suite.publicOf(mine))
    ensures var keys := DeriveSessionKeys(c.suite, mine, peer, true);
            var w := Conclude(c, v, DialOutcome(c, v, sock, Some(peer)));
            keys.Some? && Begun(c, w, keys.value, c.suite.publicOf(mine), peer)
  {
    var o := DialOutcome(c, v, sock, Some(peer));
    assert o.Entered? && o.keys == DeriveSessionKeys(c.suite, mine, peer, true).value && o.ephemeral == peer;
    InstallBegins(c, o.at, o.keys, sock, c.suite.publicOf(mine), peer);
  }

  /** The caller takes a fresh answer and is in the call. */
  lemma CallerConnects(c: Config, v: View, sock: nat, payload: Bytes, now: int, mine: Key32, peer: Bytes)
    requires FixedSizes(c.suite) && v.pending.dials > 0 && |peer| == 32
    requires v.keys.private == Some(mine) && v.link.myPublic == Some(c.suite.publicOf(mine))
    requires var address := PeerAddress(v.call);
             VerifyPeer(c.suite, now, v.contacts, payload, address).ephemeral == Some(peer)
    requires c.suite.exchange(mine, peer).Some?
    ensures var connected := Step(c, v, Connected(sock, payload, now));
            var keys := DeriveSessionKeys(c.suite, mine, peer, true);
            keys.Some? && Begun(c, connected, keys.value, c.suite.publicOf(mine), peer)
  {
    var address := PeerAddress(v.call);
    var (verdict, w) := Verify(c, LoseDial(v), payload, address, now);
    DialEnters(c, w, sock, mine, peer);
    assert ConnectedOutcome(c, v, sock, payload, now) == DialOutcome(c, w, sock, Some(peer));
  }

  // ---------------------------------------------------------------------------
  // Agreement
  // ---------------------------------------------------------------------------

  /** The payload that c sends with its material while its own address is local. */
  function Offer(c: Config, m: Material, local: Option<string>): Option<Bytes> {
    BuildHandshake(c.suite, c.identityPrivate, c.suite.publicOf(m.private), m.nonce, local)
  }

  /** A dial with this material is out; where it came from and what has happened since does not matter. */
  predicate Awaits(c: Config, v: View, m: Material) {
    v.pending.dials > 0 && v.keys.private == Some(m.private) && v.link.myPublic == Some(c.suite.publicOf(m.private))
  }

  /** A caller with this request waits for an answer. */
  predicate Rings(w: View, request: Bytes) {
    w.state == Ringing && w.call.incoming.Some? && w.call.incoming.value.payload == request
  }

  /** One suite, one list of words, clocks close enough, and no refused exchange. */
  ghost predicate Compatible(c: Config, d: Config, offered: Material, made: nat, answer: Material, answered: nat,
                             calleeNow: int, callerNow: int)
  {
    && Lawful(c.suite) && d.suite == c.suite && d.words == c.words
    && MadeAt(offered, made) && MadeAt(answer, answered)
    && Within(made, calleeNow) && Within(answered, callerNow)
    && c.suite.exchange(offered.private, c.suite.publicOf(answer.private)).Some?
  }

  /** What the exchange gives both sides. */
  function SecretOf(c: Config, offered: Material, answer: Material): Bytes {
    c.suite.exchange(offered.private, c.suite.publicOf(answer.private)).GetOr([])
  }

  /** Both in the call, with crossed keys, fresh counters, live loops and the same words on the screen. */
  predicate Agreed(caller: View, callee: View) {
    && caller.state == InCall && callee.state == InCall
    && caller.keys.send.Some? && caller.keys.send == callee.keys.recv
    && caller.keys.recv.Some? && caller.keys.recv == callee.keys.send
    && caller.link.sendSeq == callee.link.sendSeq == 0
    && caller.link.lastRecvSeq == callee.link.lastRecvSeq == -1
    && Receiving(caller) && Receiving(callee)
    && caller.history.shownSas.Some? && caller.history.shownSas == callee.history.shownSas
  }

  /**
   * An untampered request and answer, each verified within the freshness window: whatever the caller did since its dial
   * and whatever the dial was for, and whatever the callee did while it rang, both sides are in the call, the caller
   * sends with the key the callee receives with and the other way round, both counters start afresh, and both users
   * are shown the same words.  The one thing that can prevent it is an exchange that refuses the keys.  The two send
   * with different keys exactly when the halves of the expanded secret differ.
   */
  lemma {:induction false} Agreement(
      c: Config, d: Config, v: View, w: View, local: Option<string>, request: Bytes, sock: nat,
      offered: Material, made: nat, answer: Material, answered: nat, calleeNow: int, callerNow: int)
    requires Compatible(c, d, offered, made, answer, answered, calleeNow, callerNow)
    requires Awaits(c, v, offered) && Offer(c, offered, local) == Some(request)
    requires Rings(w, request) && Advertises(d, w)
    ensures var callee := Step(d, w, AcceptCall(answer, calleeNow, true));
            && callee.history.handshake == Offer(d, answer, w.local)
            && callee.history.handshake.Some?
            && var caller := Step(c, v, Connected(sock, callee.history.handshake.value, callerNow));
               && Agreed(caller, callee)
               && (caller.keys.send != callee.keys.send <==> Separates(c.suite, SecretOf(c, offered, answer)))
  {
    var s := c.suite;
    var callerPublic, calleePublic := s.publicOf(offered.private), s.publicOf(answer.private);
    assert s.exchange(answer.private, callerPublic) == s.exchange(offered.private, calleePublic);
    BuiltHandshakeVerifies(s, c.identityPrivate, callerPublic, made, offered.nonce[8..], local, calleeNow, w.contacts,
                           w.call.incoming.value.address);
    CalleeAnswers(d, w, answer, calleeNow, offered.private);
    HandshakeTravels(d, w, answer, CallAccept);
    BuiltHandshakeVerifies(s, d.identityPrivate, calleePublic, answered, answer.nonce[8..], w.local, callerNow,
                           v.contacts, PeerAddress(v.call));
    CallerConnects(c, v, sock, Offer(d, answer, w.local).value, callerNow, offered.private, calleePublic);
    DirectionalKeysAgree(s, offered.private, answer.private);
    SasIsSymmetric(s, c.words, callerPublic, calleePublic);
  }

  // ---------------------------------------------------------------------------
  // How the two come to wait for each other
  // ---------------------------------------------------------------------------

  /** The user places a call, or the timer of a dropped one runs out. */
  predicate StartsDial(v: View, e: Event, m: Material) {
    match e
    case PlaceCall(_, n) => n == m && v.state == Idle
    case ReconnectTimer(n) => n == m && v.pending.timers > 0 && !v.call.userEnded && HasPeer(v)
    case _ => false
  }

  /** First call or re-dial, the request goes out and the machine awaits its answer. */
  lemma DialAwaits(c: Config, v: View, e: Event, m: Material)
    requires StartsDial(v, e, m) && Offer(c, m, v.local).Some?
    ensures Awaits(c, Step(c, v, e), m) && Step(c, v, e).history.handshake == Offer(c, m, v.local)
    ensures Step(c, v, e).pending.dials == v.pending.dials + 1
  {
  }

  /** A request goes out exactly when a call is placed or a timer runs out with a peer to dial, and it can be built. */
  lemma DialGoesOutIff(c: Config, v: View, e: Event)
    requires !IsAnswer(e) && !EndsCalls(e)
    ensures Step(c, v, e).pending.dials
         == v.pending.dials
            + (if (e.PlaceCall? || e.ReconnectTimer?) && StartsDial(v, e, e.material)
                  && Offer(c, e.material, v.local).Some? then 1 else 0)
  {
    if e.SendTick? || e.Receive? {
      TransmitWaits(c, v, e);
    }
  }

  /** The request names the address that was last set, or none; the callee reads it so, signed by our identity. */
  lemma {:induction false} AddressIsAdvertised(c: Config, v: View, a: string, address: string, m: Material)
    requires Lawful(c.suite) && v.state == Idle
    requires Offer(c, m, if a == "" then None else Some(a)).Some?
    ensures var w := Run(c, v, [SetLocalAddress(a), PlaceCall(address, m)]);
            && w.history.handshake.Some?
            && var h := DecodeHandshake(c.suite, w.history.handshake.value);
               && h.Some? && h.value.address == (if a == "" then None else Some(a))
               && h.value.ephemeral == c.suite.publicOf(m.private) && h.value.nonce == Some(m.nonce)
               && h.value.identity == Some(c.suite.identityOf(c.identityPrivate)) && !Anonymous(h.value)
               && SignatureHolds(c.suite, h.value)
  {
    var local := if a == "" then None else Some(a);
    var w := RunTwo(c, v, SetLocalAddress(a), PlaceCall(address, m));
    VerifierRebuildsSignedBytes(c.suite, c.identityPrivate, c.suite.publicOf(m.private), m.nonce, local);
  }

  /** Everything but a dial, the report of one, an answer, or the end of a call. */
  predicate Bystanding(e: Event) {
    !e.PlaceCall? && !e.ReconnectTimer? && !IsAnswer(e) && !EndsCalls(e) && !e.RejectCall?
  }

  lemma TransmitWaits(c: Config, v: View, e: Event)
    requires e.SendTick? || e.Receive?
    ensures var w := Step(c, v, e);
            && w.pending.dials == v.pending.dials && w.keys.private == v.keys.private
            && w.link.myPublic == v.link.myPublic && w.state == v.state && w.call.incoming == v.call.incoming
  {
  }

  /** Captures, ticks, pings, packets, further callers and changes of settings leave both sides waiting. */
  lemma {:induction false} WaitingGoesOn(c: Config, v: View, events: seq<Event>, m: Material, request: Bytes)
    requires forall i :: 0 <= i < |events| ==> Bystanding(events[i])
    ensures Awaits(c, v, m) ==> Awaits(c, Run(c, v, events), m)
    ensures Rings(v, request) ==> Rings(Run(c, v, events), request)
    decreases |events|
  {
    if events != [] {
      if events[0].SendTick? || events[0].Receive? {
        TransmitWaits(c, v, events[0]);
      }
      WaitingGoesOn(c, Step(c, v, events[0]), events[1..], m, request);
    }
  }

  /** A first call or a re-dial, with anything bystanding on both sides until the answer comes. */
  lemma {:induction false} DialledCallAgrees(
      c: Config, d: Config, v: View, dial: Event, since: seq<Event>, w: View, info: Incoming, ringing: seq<Event>,
      sock: nat, offered: Material, made: nat, answer: Material, answered: nat, calleeNow: int, callerNow: int)
    requires Compatible(c, d, offered, made, answer, answered, calleeNow, callerNow)
    requires StartsDial(v, dial, offered) && Offer(c, offered, v.local) == Some(info.payload)
    requires w.state == Idle && !w.call.busy
    requires forall i :: 0 <= i < |since| ==> Bystanding(since[i])
    requires forall i :: 0 <= i < |ringing| ==> Bystanding(ringing[i])
    requires Advertises(d, Run(d, Step(d, w, IncomingCall(info)), ringing))
    ensures var callee := Step(d, Run(d, Step(d, w, IncomingCall(info)), ringing), AcceptCall(answer, calleeNow, true));
            var reply := Connected(sock, callee.history.handshake.GetOr([]), callerNow);
            Agreed(Step(c, Run(c, Step(c, v, dial), since), reply), callee)
  {
    DialAwaits(c, v, dial, offered);
    WaitingGoesOn(c, Step(c, v, dial), since, offered, info.payload);
    WaitingGoesOn(d, Step(d, w, IncomingCall(info)), ringing, offered, info.payload);
    Agreement(c, d, Run(c, Step(c, v, dial), since), Run(d, Step(d, w, IncomingCall(info)), ringing), v.local,
              info.payload, sock, offered, made, answer, answered, calleeNow, callerNow);
  }

  // ---------------------------------------------------------------------------
  // Two programs from their start
  // ---------------------------------------------------------------------------

  /** One of the two programs: its set-up, its run up to the answer, and what it makes and reads during the exchange. */
  datatype Side = Side(config: Config, contacts: Contacts.Store, before: seq<Event>, material: Material, made: nat,
                       now: int)

  function StateAfter(p: Side, events: seq<Event>): View {
    Run(p.config, Init(p.config, p.contacts), events)
  }

  /** Any run of p that ends with a dial out, and any run of q that ends with its request waiting. */
  ghost predicate CanTalk(p: Side, q: Side, local: Option<string>, request: Bytes) {
    && Compatible(p.config, q.config, p.material, p.made, q.material, q.made, q.now, p.now)
    && Awaits(p.config, StateAfter(p, p.before), p.material) && Offer(p.config, p.material, local) == Some(request)
    && Rings(StateAfter(q, q.before), request) && Advertises(q.config, StateAfter(q, q.before))
  }

  /** The callee's run up to its answer. */
  function Answers(q: Side): seq<Event> {
    q.before + [AcceptCall(q.material, q.now, true)]
  }

  /** The caller's run up to the arrival of the answer. */
  function Connects(p: Side, sock: nat, reply: Bytes): seq<Event> {
    p.before + [Connected(sock, reply, p.now)]
  }

  /** The two sides after an untampered exchange; the reply is what the callee has sent. */
  lemma {:induction false} ExchangeAgrees(p: Side, q: Side, local: Option<string>, request: Bytes, sock: nat)
    requires CanTalk(p, q, local, request)
    ensures var callee := StateAfter(q, Answers(q));
            && callee.history.handshake.Some?
            && var caller := StateAfter(p, Connects(p, sock, callee.history.handshake.value));
               && Agreed(caller, callee)
               && (caller.keys.send != callee.keys.send
                   <==> Separates(p.config.suite, SecretOf(p.config, p.material, q.material)))
  {
    Agreement(p.config, q.config, StateAfter(p, p.before), StateAfter(q, q.before), local, request, sock,
              p.material, p.made, q.material, q.made, q.now, p.now);
    AfterOneMore(q, q.before, AcceptCall(q.material, q.now, true));
    AfterOneMore(p, p.before, Connected(sock, StateAfter(q, Answers(q)).history.handshake.value, p.now));
  }

  lemma AfterOneMore(p: Side, events: seq<Event>, e: Event)
    ensures StateAfter(p, events + [e]) == Step(p.config, StateAfter(p, events), e)
  {
    RunLast(p.config, Init(p.config, p.contacts), events + [e]);
    assert (events + [e])[..|events|] == events;
  }

  /** What one side hears in its session, against everything the other side puts on the wire in its whole run. */
  ghost predicate Hears(p: Side, joined: seq<Event>, during: seq<Event>, q: Side, sent: seq<Event>) {
    && q.config.suite == p.config.suite
    && StateAfter(p, joined).keys.recv.Some?
    && SameSession(p.config, StateAfter(p, joined), StateAfter(p, joined).keys.recv.value, during)
    && FromChannel(q.config.suite, WireOf(q.config, q.contacts, sent), StateAfter(p, joined).keys.recv.value, during)
  }

  /** What one side accepts is an in-order selection of what the other has sent under the key. */
  lemma {:induction false} OneWay(p: Side, joined: seq<Event>, during: seq<Event>, q: Side, sent: seq<Event>)
    requires SealOpens(q.config.suite) && AllFresh(q.config, Init(q.config, q.contacts), sent)
    requires Hears(p, joined, during, q, sent)
    ensures var v, w := StateAfter(p, joined), StateAfter(p, joined + during);
            Accepts(v.history.accepted, w.history.accepted,
                    FramesUnder(WireOf(q.config, q.contacts, sent), v.keys.recv.value),
                    v.link.lastRecvSeq, w.link.lastRecvSeq)
  {
    RunAppend(p.config, Init(p.config, p.contacts), joined, during);
    EndToEnd(q.config, q.contacts, sent, p.config, StateAfter(p, joined), during,
             StateAfter(p, joined).keys.recv.value);
  }

  /** No packet that one side sends under its key shares key and nonce with one that the other sends under its own. */
  ghost predicate NoneShared(s: Suite, a: seq<Sent>, aKey: Bytes, b: seq<Sent>, bKey: Bytes)
    requires Packable(s, a) && Packable(s, b)
  {
    forall i, j :: 0 <= i < |a| && 0 <= j < |b| && a[i].key == aKey && b[j].key == bKey ==>
      (a[i].key, NonceOf(WirePacket(s, a[i]))) != (b[j].key, NonceOf(WirePacket(s, b[j])))
  }

  /**
   * The whole path, both ways at once: two programs run from their start, agree on keys as above, by a first call or a
   * re-dial, and go on in their sessions, each talking and listening, while a channel drops, repeats, reorders and
   * forges.  What each side accepts is an in-order selection of the frames that the other sends under the key they
   * agreed on for that direction.
   */
  lemma {:induction false} AgreedCallDelivers(p: Side, q: Side, local: Option<string>, request: Bytes, sock: nat,
                                              reply: Bytes, duringP: seq<Event>, duringQ: seq<Event>)
    requires CanTalk(p, q, local, request) && StateAfter(q, Answers(q)).history.handshake == Some(reply)
    requires AllFresh(p.config, Init(p.config, p.contacts), Connects(p, sock, reply) + duringP)
    requires AllFresh(q.config, Init(q.config, q.contacts), Answers(q) + duringQ)
    requires Hears(p, Connects(p, sock, reply), duringP, q, Answers(q) + duringQ)
    requires Hears(q, Answers(q), duringQ, p, Connects(p, sock, reply) + duringP)
    ensures var calls, answers := Connects(p, sock, reply), Answers(q);
            var caller, callee := StateAfter(p, calls), StateAfter(q, answers);
            var callerEnd, calleeEnd := StateAfter(p, calls + duringP), StateAfter(q, answers + duringQ);
            && Agreed(caller, callee)
            && Accepts(callee.history.accepted, calleeEnd.history.accepted,
                       FramesUnder(WireOf(p.config, p.contacts, calls + duringP), caller.keys.send.value),
                       -1, calleeEnd.link.lastRecvSeq)
            && Accepts(caller.history.accepted, callerEnd.history.accepted,
                       FramesUnder(WireOf(q.config, q.contacts, answers + duringQ), callee.keys.send.value),
                       -1, callerEnd.link.lastRecvSeq)
            && (Separates(p.config.suite, SecretOf(p.config, p.material, q.material)) ==>
                  NoneShared(p.config.suite, WireOf(p.config, p.contacts, calls + duringP), caller.keys.send.value,
                             WireOf(q.config, q.contacts, answers + duringQ), callee.keys.send.value))
  {
    var calls, answers := Connects(p, sock, reply), Answers(q);
    ExchangeAgrees(p, q, local, request, sock);
    OneWay(q, answers, duringQ, p, calls + duringP);
    OneWay(p, calls, duringP, q, answers + duringQ);
  }

  // ---------------------------------------------------------------------------
  // Such conversations exist
  // ---------------------------------------------------------------------------

  /** A first call of two freshly started programs with one suite, one list of words and no delay. */
  ghost predicate FirstCall(p: Side, q: Side, address: string, info: Incoming) {
    && Compatible(p.config, q.config, p.material, p.made, q.material, q.made, q.now, p.now)
    && |p.config.identityPrivate| == 32 && |q.config.identityPrivate| == 32
    && p.before == [PlaceCall(address, p.material)] && q.before == [IncomingCall(info)]
    && Some(info.payload) == Offer(p.config, p.material, None)
  }

  lemma FreshFromStart(p: Side, a: Event, b: Event)
    requires p.before == [a] && !IsAnswer(a) && !a.SendTick?
    ensures AllFresh(p.config, Init(p.config, p.contacts), p.before + [b] + [])
  {
    var v := Init(p.config, p.contacts);
    var w := Step(p.config, v, a);
    assert p.before + [b] + [] == [a, b] && [a, b][1..] == [b] && [b][1..] == [];
    OtherStepsSendNothing(p.config, v, a);
    assert AllFresh(p.config, Step(p.config, w, b), []);
    assert AllFresh(p.config, w, [b]);
  }

  lemma FirstCallCanTalk(p: Side, q: Side, address: string, info: Incoming)
    requires FirstCall(p, q, address, info)
    ensures CanTalk(p, q, None, info.payload)
  {
    var dial, ring := PlaceCall(address, p.material), IncomingCall(info);
    AfterOneMore(p, [], dial);
    AfterOneMore(q, [], ring);
    assert [] + [dial] == p.before && [] + [ring] == q.before;
    DialAwaits(p.config, Init(p.config, p.contacts), dial, p.material);
  }

  /** A first call with nothing said after it meets every condition on the two runs. */
  lemma QuietConversation(p: Side, q: Side, address: string, info: Incoming, sock: nat, reply: Bytes)
    requires FirstCall(p, q, address, info) && StateAfter(q, Answers(q)).history.handshake == Some(reply)
    ensures CanTalk(p, q, None, info.payload)
    ensures AllFresh(p.config, Init(p.config, p.contacts), Connects(p, sock, reply) + [])
    ensures AllFresh(q.config, Init(q.config, q.contacts), Answers(q) + [])
    ensures Hears(p, Connects(p, sock, reply), [], q, Answers(q) + [])
    ensures Hears(q, Answers(q), [], p, Connects(p, sock, reply) + [])
  {
    FirstCallCanTalk(p, q, address, info);
    FreshFromStart(p, PlaceCall(address, p.material), Connected(sock, reply, p.now));
    FreshFromStart(q, IncomingCall(info), AcceptCall(q.material, q.now, true));
    ExchangeAgrees(p, q, None, info.payload, sock);
  }

  /** Such a first call exists: the toy suite refuses nothing. */
  lemma ToySidesAreCompatible(p: Side, q: Side)
    requires p.config.suite == ToySuite() && q.config.suite == ToySuite() && p.config.words == q.config.words
    requires MadeAt(p.material, p.made) && MadeAt(q.material, q.made)
    requires p.made == q.made == p.now == q.now
    ensures Compatible(p.config, q.config, p.material, p.made, q.material, q.made, q.now, p.now)
  {
    LawsAreConsistent();
  }
}
