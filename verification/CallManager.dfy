/** The call manager as an object with key buffers on the heap, each method proved against its step of CallModel. */
module CallManagers {
  import opened Wrappers
  import opened Bytes
  import opened Protocol
  import opened Crypto
  import opened PeerVerification
  import opened CallModel
  import M = CallModel
  import Contacts
  import opened ContactStores
  import opened KeyRings
  import opened PacketReader

  class CallManager {
    const config: Config
    const contacts: ContactStore
    /** _my_private, _send_key and _recv_key. */
    const keys: KeyRing

    var state: CallState
    var local: Option<string>
    /** The fields that a teardown clears. */
    var link: Link
    /** The fields that only the end of the call clears. */
    var call: Call
    var queue: seq<Slot>

    /** Events the framework still holds, and what an observer has seen. */
    ghost var pending: Pending
    ghost var history: History

    ghost function View(): View
      reads this, contacts, keys
    {
      M.View(state, local, link, keys.held, call, queue, contacts.contacts, pending, history.(leaks := keys.leaks))
    }

    ghost predicate Valid()
      reads this, keys, keys.buffers
    {
      keys.Valid()
    }

    /** Contacts left under loopback addresses by earlier versions go at start-up. */
    constructor (config: Config, contacts: ContactStore)
      modifies contacts
      ensures Valid() && this.config == config && this.contacts == contacts && fresh(keys) && keys.buffers == {}
      ensures View() == M.Init(config, Contacts.PurgeLoopback(old(contacts.contacts)))
    {
      this.config, this.contacts := config, contacts;
      keys := new KeyRing();
      state, local := Idle, None;
      link := NoLink(config);
      call := NO_CALL;
      queue := [];
      pending := Pending(0, 0, 0, 0, 0, 0);
      history := History([], [], [], [], 0, None, None, None);
      new;
      var _ := contacts.PurgeLoopback();
    }

    // -------------------------------------------------------------------------
    // Cleanup
    // -------------------------------------------------------------------------

    method TeardownConnection()
      requires Valid()
      modifies this, keys, keys.buffers
      ensures Valid() && keys.buffers == old(keys.buffers)
      ensures View() == M.Teardown(config, old(View()))
    {
      StopLoops();
      link := link.(sock := None);
      keys.Wipe();
      link := link.(myPublic := None, sendSeq := 0, lastRecvSeq := -1, client := false,
                    sasConfirmed := !config.requireSas);
    }

    /** The sending loop is waited for; the receiving loop is not, so its read may end at any later time. */
    method StopLoops()
      modifies this`link, this`queue, this`pending
      ensures link == old(link).(recvRunning := false, sendRunning := false, sendThread := false)
      ensures queue == old(if link.sendThread && |queue| < QUEUE_SIZE then queue + [Stop] else queue)
      ensures pending == old(pending.(senders := 0, receivers := 0, orphans := pending.orphans + pending.receivers))
    {
      link := link.(recvRunning := false, sendRunning := false);
      if link.sendThread {
        if |queue| < QUEUE_SIZE {
          queue := queue + [Stop];
        }
        link := link.(sendThread := false);
      }
      pending := pending.(senders := 0, receivers := 0, orphans := pending.orphans + pending.receivers);
    }

    method CleanupCall()
      requires Valid()
      modifies this, keys, keys.buffers
      ensures Valid() && keys.buffers == old(keys.buffers)
      ensures View() == M.Cleanup(config, old(View()))
    {
      TeardownConnection();
      call := call.(peer := None, busy := false);
      call := call.(incoming := None, pendingSas := None, pendingIdentity := None);
      call := call.(isCaller := false, userEnded := false, attempts := 0, reconnecting := false);
    }

    method Finish()
      requires Valid()
      modifies this, keys, keys.buffers
      ensures Valid() && keys.buffers == old(keys.buffers)
      ensures View() == M.Finish(config, old(View()))
    {
      CleanupCall();
      state := Idle;
    }

    // -------------------------------------------------------------------------
    // Handshakes
    // -------------------------------------------------------------------------

    method NewPrivate(m: Material)
      requires Valid()
      modifies this`link, keys
      ensures Valid() && fresh(keys.buffers - old(keys.buffers))
      ensures View() == M.NewPrivate(config, old(View()), m)
    {
      keys.SetPrivate(m.private);
      link := link.(myPublic := Some(config.suite.publicOf(m.private)));
    }

    method Dial(m: Material)
      requires Valid()
      modifies this, keys
      ensures Valid() && fresh(keys.buffers - old(keys.buffers))
      ensures View() == M.Dial(config, old(View()), m)
    {
      NewPrivate(m);
      link := link.(client := true);
      var handshake := BuildHandshake(config.suite, config.identityPrivate, link.myPublic.value, m.nonce, local);
      if handshake.Some? {
        pending := pending.(dials := pending.dials + 1);
        history := history.(handshake := handshake);
      }
    }

    /** _verify_peer_identity: the peer's ephemeral key, or None when the call must not go on. */
    method VerifyPeerIdentity(payload: Bytes, address: string, now: int) returns (ephemeral: Option<Bytes>)
      requires Valid()
      modifies this, contacts
      ensures Valid() && keys.buffers == old(keys.buffers)
      ensures var (verdict, w) := M.Verify(config, old(View()), payload, address, now);
              ephemeral == verdict.ephemeral && View() == w
    {
      var decoded := DecodeHandshake(config.suite, payload);
      if decoded.None? {
        return None;
      }
      var h := decoded.value;
      if h.identity.None? || h.signature.None? {
        call := call.(pendingIdentity := Some(PeerIdentity(Unsigned, address, "")));
        return Some(h.ephemeral);
      }
      if !VerifyHandshake(config.suite, now, h.identity.value, h.ephemeral, h.signature.value, h.nonce, h.address) {
        call := call.(pendingIdentity := Some(PeerIdentity(InvalidSignature, address, "")));
        return None;
      }
      var pin := address;
      if !IsValidOnionV3(address) && h.address.Some? && IsValidOnionV3(h.address.value) {
        pin := h.address.value;
      }
      var status := contacts.Check(pin, h.identity.value);
      var name := contacts.NameForKey(Hex(h.identity.value));
      call := call.(pendingIdentity := Some(PeerIdentity(Pinned(status), pin, name)));
      return Some(h.ephemeral);
    }

    // -------------------------------------------------------------------------
    // Sessions
    // -------------------------------------------------------------------------

    method InstallKeys(session: SessionKeys)
      requires Valid()
      modifies this`history, keys
      ensures Valid() && fresh(keys.buffers - old(keys.buffers))
      ensures keys.held == old(keys.held).(send := Some(session.send), recv := Some(session.recv))
      ensures keys.leaks == old(keys.leaks + Count(keys.held.send) + Count(keys.held.recv))
      ensures history == old(history).(sendKeys := old(history).sendKeys + [session.send])
    {
      keys.SetSend(session.send);
      keys.SetRecv(session.recv);
      history := history.(sendKeys := history.sendKeys + [session.send]);
    }

    /** Keys in buffers of their own, counters from the start, and the words to show. */
    method Equip(session: SessionKeys, s: nat, ephemeral: Bytes)
      requires Valid()
      modifies this, keys
      ensures Valid() && fresh(keys.buffers - old(keys.buffers))
      ensures View() == M.Equip(config, old(View()), session, s, ephemeral)
    {
      InstallKeys(session);
      link := link.(sock := Some(s), sendSeq := 0, lastRecvSeq := -1);
      call := call.(pendingSas := Some(ComputeSas(config.suite, config.words, link.myPublic.GetOr([]), ephemeral)));
      call := call.(busy := true);
    }

    method Install(session: SessionKeys, s: nat, ephemeral: Bytes)
      requires Valid()
      modifies this, keys
      ensures Valid() && fresh(keys.buffers - old(keys.buffers))
      ensures View() == M.Install(config, old(View()), session, s, ephemeral)
    {
      Equip(session, s, ephemeral);
      StartCallSession();
    }

    /** Stale frames of an earlier call go. */
    method DrainQueue()
      modifies this`queue
      ensures queue == []
    {
      while queue != []
        decreases |queue|
      {
        queue := queue[1..];
      }
    }

    method StartCallSession()
      requires Valid()
      modifies this
      ensures Valid() && keys.buffers == old(keys.buffers)
      ensures View() == M.StartSession(old(View()))
    {
      state := InCall;
      DrainQueue();
      link := link.(sendRunning := true, sendThread := true, recvRunning := true);
      pending := pending.(senders := pending.senders + 1, receivers := pending.receivers + 1);
      if call.pendingIdentity.Some? {
        history := history.(shownIdentity := call.pendingIdentity);
        call := call.(pendingIdentity := None);
      }
      if call.pendingSas.Some? {
        history := history.(shownSas := call.pendingSas);
        call := call.(pendingSas := None);
      }
    }

    // -------------------------------------------------------------------------
    // Outgoing calls
    // -------------------------------------------------------------------------

    method PlaceCall(address: string, m: Material)
      requires Valid()
      modifies this, keys
      ensures Valid() && fresh(keys.buffers - old(keys.buffers))
      ensures View() == M.DoPlaceCall(config, old(View()), address, m)
    {
      if state != Idle {
        return;
      }
      call := call.(isCaller := true, userEnded := false, attempts := 0, reconnecting := false);
      state := Dialing;
      call := call.(peer := Some(address));
      Dial(m);
    }

    method CancelCall(stopped: bool)
      requires Valid()
      modifies this, keys, keys.buffers
      ensures Valid() && keys.buffers == old(keys.buffers)
      ensures View() == M.DoCancelCall(config, old(View()), stopped)
    {
      call := call.(userEnded := true);
      if link.client {
        pending := pending.(dials := if stopped && pending.dials > 0 then pending.dials - 1 else pending.dials);
      }
      Finish();
    }

    method OnOutgoingConnected(s: nat, payload: Bytes, now: int)
      requires Valid() && pending.dials > 0
      modifies this, contacts, keys, keys.buffers
      ensures Valid() && fresh(keys.buffers - old(keys.buffers))
      ensures View() == M.Conclude(config, old(View()), M.ConnectedOutcome(config, old(View()), s, payload, now))
    {
      pending := pending.(dials := pending.dials - 1);
      var address := PeerAddress(call);
      var ephemeral := VerifyPeerIdentity(payload, address, now);
      CompleteDial(s, ephemeral);
    }

    /** The rest of an answered dial; a missing key or a refused exchange raises, and nothing happens. */
    method CompleteDial(s: nat, ephemeral: Option<Bytes>)
      requires Valid()
      modifies this, keys, keys.buffers
      ensures Valid() && fresh(keys.buffers - old(keys.buffers))
      ensures View() == M.Conclude(config, old(View()), M.DialOutcome(config, old(View()), s, ephemeral))
    {
      if ephemeral.None? {
        Finish();
        return;
      }
      if keys.myPrivate == null {
        return;
      }
      var session := DeriveSessionKeys(config.suite, keys.myPrivate[..], ephemeral.value, true);
      if session.None? {
        return;
      }
      call := call.(reconnecting := false, attempts := 0);
      Install(session.value, s, ephemeral.value);
    }

    method OnOutgoingRejected()
      requires Valid() && pending.dials > 0
      modifies this, keys, keys.buffers
      ensures Valid() && keys.buffers == old(keys.buffers)
      ensures View() == M.Finish(config, M.LoseDial(old(View())))
    {
      pending := pending.(dials := pending.dials - 1);
      Finish();
    }

    /** A failed or timed-out dial. */
    method OnOutgoingFailed()
      requires Valid() && pending.dials > 0
      modifies this, keys, keys.buffers
      ensures Valid() && keys.buffers == old(keys.buffers)
      ensures View() == M.DoFailed(config, old(View()))
    {
      pending := pending.(dials := pending.dials - 1);
      if call.reconnecting && MayReconnect(config, call) {
        AttemptReconnect();
        return;
      }
      Finish();
    }

    // -------------------------------------------------------------------------
    // Incoming calls
    // -------------------------------------------------------------------------

    method OnIncomingCall(info: Incoming)
      requires Valid()
      modifies this
      ensures Valid() && keys.buffers == old(keys.buffers)
      ensures View() == M.DoIncomingCall(old(View()), info)
    {
      if call.busy || state != Idle {
        return;
      }
      call := call.(incoming := Some(info), peer := Some(info.address));
      state := Ringing;
    }

    method TakeIncoming(m: Material)
      requires Valid()
      modifies this, keys
      ensures Valid() && fresh(keys.buffers - old(keys.buffers))
      ensures View() == M.TakeIncoming(config, old(View()), m)
      ensures keys.myPrivate != null && link.myPublic.Some?
    {
      call := call.(isCaller := false, userEnded := false, attempts := 0, reconnecting := false, incoming := None);
      NewPrivate(m);
    }

    method AcceptCall(m: Material, now: int, sent: bool)
      requires Valid()
      modifies this, contacts, keys, keys.buffers
      ensures Valid() && fresh(keys.buffers - old(keys.buffers))
      ensures View() == M.Conclude(config, old(View()), M.AcceptOutcome(config, old(View()), m, now, sent))
    {
      if state != Ringing || call.incoming.None? {
        return;
      }
      var info := call.incoming.value;
      TakeIncoming(m);
      var ephemeral := VerifyPeerIdentity(info.payload, info.address, now);
      CompleteAnswer(info.sock, ephemeral, m, sent);
    }

    /** The rest of an answer, once the caller is verified or refused; a handshake that cannot be packed raises. */
    method CompleteAnswer(s: nat, ephemeral: Option<Bytes>, m: Material, sent: bool)
      requires Valid() && keys.myPrivate != null && link.myPublic.Some?
      modifies this, keys, keys.buffers
      ensures Valid() && fresh(keys.buffers - old(keys.buffers))
      ensures View() == M.Conclude(config, old(View()), M.ReplyOutcome(config, old(View()), s, ephemeral, m, sent))
    {
      if ephemeral.None? {
        Finish();
        return;
      }
      var handshake := BuildHandshake(config.suite, config.identityPrivate, link.myPublic.value, m.nonce, local);
      if handshake.None? || |handshake.value| > MAX_PAYLOAD {
        return;
      }
      if !sent {
        Finish();
        return;
      }
      history := history.(handshake := handshake);
      JoinCall(s, ephemeral.value);
    }

    /** Our answer has been sent; a refused exchange raises. */
    method JoinCall(s: nat, ephemeral: Bytes)
      requires Valid() && keys.myPrivate != null
      modifies this, keys
      ensures Valid() && fresh(keys.buffers - old(keys.buffers))
      ensures View() == M.Conclude(config, old(View()), M.JoinOutcome(config, old(View()), s, ephemeral))
    {
      var session := DeriveSessionKeys(config.suite, keys.myPrivate[..], ephemeral, false);
      if session.None? {
        return;
      }
      Install(session.value, s, ephemeral);
    }

    method RejectCall()
      requires Valid()
      modifies this
      ensures Valid() && keys.buffers == old(keys.buffers)
      ensures View() == M.DoRejectCall(old(View()))
    {
      if call.incoming.Some? {
        call := call.(incoming := None);
      }
      state := Idle;
    }

    method EndCall()
      requires Valid()
      modifies this, keys, keys.buffers
      ensures Valid() && keys.buffers == old(keys.buffers)
      ensures View() == M.DoEndCall(config, old(View()))
    {
      if state != InCall && state != Connecting {
        return;
      }
      call := call.(userEnded := true);
      Finish();
    }

    // -------------------------------------------------------------------------
    // Disconnects and reconnects
    // -------------------------------------------------------------------------

    method PeerDisconnectMainThread()
      requires Valid() && pending.callbacks > 0
      modifies this, keys, keys.buffers
      ensures Valid() && keys.buffers == old(keys.buffers)
      ensures View() == M.DoDisconnect(config, old(View()))
    {
      pending := pending.(callbacks := pending.callbacks - 1);
      if state == Idle {
        return;
      }
      if MayReconnect(config, call) {
        AttemptReconnect();
        return;
      }
      Finish();
    }

    method AttemptReconnect()
      requires Valid()
      modifies this, keys, keys.buffers
      ensures Valid() && keys.buffers == old(keys.buffers)
      ensures View() == M.AttemptReconnect(config, old(View()))
    {
      call := call.(attempts := call.attempts + 1, reconnecting := true);
      TeardownConnection();
      state := Dialing;
      pending := pending.(timers := pending.timers + 1);
    }

    method ReconnectNow(m: Material)
      requires Valid() && pending.timers > 0
      modifies this, keys
      ensures Valid() && fresh(keys.buffers - old(keys.buffers))
      ensures View() == M.DoReconnect(config, old(View()), m)
    {
      pending := pending.(timers := pending.timers - 1);
      if call.userEnded || !KnowsPeer(call) {
        return;
      }
      Dial(m);
    }

    method SendPing(alive: bool, sent: bool)
      requires Valid()
      modifies this
      ensures Valid() && keys.buffers == old(keys.buffers)
      ensures View() == M.DoPing(old(View()), alive, sent)
    {
      if link.sock.None? || state != InCall {
        return;
      }
      if !alive || !sent {
        HandlePeerDisconnect();
      }
    }

    method HandlePeerDisconnect()
      requires Valid()
      modifies this
      ensures Valid() && keys.buffers == old(keys.buffers)
      ensures View() == M.Post(old(View()), 1)
    {
      pending := pending.(callbacks := pending.callbacks + 1);
    }

    // -------------------------------------------------------------------------
    // Sending
    // -------------------------------------------------------------------------

    method OnAudioCaptured(pcm: Bytes)
      requires Valid()
      modifies this
      ensures Valid() && keys.buffers == old(keys.buffers)
      ensures View() == M.DoCaptured(old(View()), pcm)
    {
      if state != InCall || keys.sendKey == null {
        return;
      }
      if !link.sasConfirmed {
        return;
      }
      if |queue| >= QUEUE_SIZE {
        queue := queue[1..];
      }
      queue := queue + [Pcm(pcm)];
    }

    /** Returns false when the loop must end; a frame that cannot be packed raises instead and is skipped. */
    method TransmitFrame(pcm: Bytes, opus: Bytes, sent: bool) returns (go: bool)
      requires Valid() && keys.sendKey != null && pending.senders > 0
      modifies this
      ensures Valid() && keys.buffers == old(keys.buffers)
      ensures View() == M.Transmit(config, old(View()), pcm, opus, sent)
      ensures go <==> pending.senders == old(pending.senders)
    {
      if link.sendSeq >= MAX_SEQUENCE {
        HandlePeerDisconnect();
        HandlePeerDisconnect();
        pending := pending.(senders := pending.senders - 1);
        return false;
      }
      var payload := AudioPayload(config.suite, keys.sendKey[..], link.sendSeq, opus);
      if payload.None? {
        return true;
      }
      history := history.(wire := history.wire + [Sent(keys.sendKey[..], link.sendSeq, pcm, opus, sent)]);
      if !sent {
        HandlePeerDisconnect();
        pending := pending.(senders := pending.senders - 1);
        return false;
      }
      link := link.(sendSeq := link.sendSeq + 1);
      return true;
    }

    /** One turn of the sending loop. */
    method SendTurn(encoded: Option<Bytes>, sent: bool) returns (go: bool)
      requires Valid() && pending.senders > 0
      modifies this
      ensures Valid() && keys.buffers == old(keys.buffers)
      ensures View() == M.DoSendTick(config, old(View()), encoded, sent)
      ensures go <==> pending.senders == old(pending.senders)
    {
      if !link.sendRunning || keys.sendKey == null || link.sock.None? {
        pending := pending.(senders := pending.senders - 1);
        return false;
      }
      var pcm := SILENCE;
      if queue == [] {
        if !config.constantRate {
          return true;
        }
      } else {
        var slot := queue[0];
        queue := queue[1..];
        if slot.Stop? {
          pending := pending.(senders := pending.senders - 1);
          return false;
        }
        pcm := slot.frame;
      }
      if encoded.None? {
        return true;
      }
      go := TransmitFrame(pcm, encoded.value, sent);
    }

    /** The sending loop, turn after turn until it ends or the inputs do. */
    method SendLoop(turns: seq<(Option<Bytes>, bool)>)
      requires Valid() && pending.senders == 1
      modifies this
      ensures Valid() && keys.buffers == old(keys.buffers)
      ensures View() == Run(config, old(View()), SendEvents(turns))
    {
      ghost var events := SendEvents(turns);
      var go := true;
      var i := 0;
      while i < |turns| && go
        invariant Valid() && keys.buffers == old(keys.buffers)
        invariant i <= |turns| && pending.senders == (if go then 1 else 0)
        invariant Run(config, old(View()), events) == Run(config, View(), events[i..])
      {
        NextTurn(config, View(), turns, i);
        go := SendTurn(turns[i].0, turns[i].1);
        i := i + 1;
      }
      if !go {
        DeadSenderIsStill(config, View(), events[i..]);
      }
    }

    // -------------------------------------------------------------------------
    // Receiving
    // -------------------------------------------------------------------------

    method HandleAudioPacket(p: Packet, decoded: Option<Bytes>)
      requires Valid()
      modifies this
      ensures Valid() && keys.buffers == old(keys.buffers)
      ensures View() == M.HandleAudio(config, old(View()), p, decoded)
    {
      if keys.recvKey == null {
        return;
      }
      if p.sequence <= link.lastRecvSeq {
        return;
      }
      var opus := OpenAudio(config.suite, keys.recvKey[..], p.payload);
      if opus.None? || decoded.None? {
        return;
      }
      if link.sasConfirmed {
        history := history.(played := history.played + [decoded.value]);
      }
      link := link.(lastRecvSeq := p.sequence);
      history := history.(accepted := history.accepted + [Accepted(p.sequence, opus.value)]);
    }

    method DispatchPacket(p: Packet, decoded: Option<Bytes>)
      requires Valid() && Receiving(View())
      modifies this
      ensures Valid() && keys.buffers == old(keys.buffers)
      ensures View() == M.DoReceive(config, old(View()), Arrived(p), decoded)
    {
      match p.msgType {
        case AudioData => HandleAudioPacket(p, decoded);
        case CallEnd =>
          call := call.(userEnded := true);
          HandlePeerDisconnect();
        case _ =>
      }
    }

    /** A read that gave no packet ends the loop. */
    method ReceiveEnded(input: Input)
      requires Valid() && Receiving(View()) && !input.Arrived?
      modifies this
      ensures Valid() && keys.buffers == old(keys.buffers)
      ensures View() == M.DoReceive(config, old(View()), input, None)
    {
      if !input.BadPacket? {
        HandlePeerDisconnect();
      }
      pending := pending.(receivers := pending.receivers - 1);
    }

    /** The read of a loop whose connection is gone ends. */
    method LateEnd(closed: bool)
      requires Valid() && pending.orphans > 0
      modifies this
      ensures Valid() && keys.buffers == old(keys.buffers)
      ensures View() == M.DoLateEnd(old(View()), closed)
    {
      pending := pending.(orphans := pending.orphans - 1);
      if closed || link.recvRunning {
        HandlePeerDisconnect();
      }
    }

    /** One turn of the receiving loop: a read, and what its result does. */
    method RecvTurn(stream: Socket, decoded: Option<Bytes>) returns (go: bool)
      requires Valid() && Receiving(View()) && stream.Valid()
      modifies this, stream
      ensures Valid() && keys.buffers == old(keys.buffers) && stream.Valid()
      ensures var (read, rest) := ReadOne(old(stream.Stream()));
              stream.Stream() == rest && go == read.Received? && View() == AfterRead(config, old(View()), read, decoded)
      ensures go ==> Receiving(View())
    {
      var read := ReadPacketSync(stream);
      if read.Received? {
        DispatchPacket(read.packet, decoded);
      } else {
        ReceiveEnded(if read.Eof? then PeerClosed else BadPacket);
      }
      go := read.Received?;
    }

    /** The receiving loop over a stream of bytes; decoded(i) is what the codec makes of the i-th packet. */
    method RecvLoop(stream: Socket, decoded: nat -> Option<Bytes>)
      requires Valid() && Receiving(View()) && stream.Valid()
      modifies this, stream
      ensures Valid() && keys.buffers == old(keys.buffers)
      ensures View() == Run(config, old(View()), ReceiveEvents(ReadAllFrom(old(stream.Stream())), decoded, 0))
    {
      ghost var goal := Run(config, View(), ReceiveEvents(ReadAllFrom(stream.Stream()), decoded, 0));
      var n := 0;
      var go := true;
      while go
        invariant Valid() && keys.buffers == old(keys.buffers) && stream.Valid()
        invariant go ==> Receiving(View())
        invariant goal == if go then Run(config, View(), ReceiveEvents(ReadAllFrom(stream.Stream()), decoded, n))
                          else View()
        decreases go, |stream.Stream()|
      {
        ReadAhead(config, View(), stream.Stream(), decoded, n);
        go := RecvTurn(stream, decoded(n));
        n := n + 1;
      }
    }

    // -------------------------------------------------------------------------
    // Settings, and runs of events
    // -------------------------------------------------------------------------

    method ConfirmSas()
      requires Valid()
      modifies this
      ensures Valid() && keys.buffers == old(keys.buffers)
      ensures View() == old(View()).(link := old(View()).link.(sasConfirmed := true))
    {
      if link.sasConfirmed {
        return;
      }
      link := link.(sasConfirmed := true);
    }

    method SetLocalAddress(address: string)
      requires Valid()
      modifies this
      ensures Valid() && keys.buffers == old(keys.buffers)
      ensures View() == old(View()).(local := if address == "" then None else Some(address))
    {
      local := if address == "" then None else Some(address);
    }

    /** Deliver one due event. */
    method Handle(e: Event)
      requires Valid() && Due(View(), e)
      modifies this, contacts, keys, keys.buffers
      ensures Valid() && fresh(keys.buffers - old(keys.buffers))
      ensures View() == Step(config, old(View()), e)
    {
      match e {
        case PlaceCall(address, m) => PlaceCall(address, m);
        case CancelCall(stopped) => CancelCall(stopped);
        case AcceptCall(m, now, sent) => AcceptCall(m, now, sent);
        case RejectCall => RejectCall();
        case EndCall => EndCall();
        case ConfirmSas => ConfirmSas();
        case RenameContact(a, name) => contacts.SetName(a, name);
        case RemoveContact(a) => var _ := contacts.Remove(a);
        case SetLocalAddress(a) => SetLocalAddress(a);
        case IncomingCall(info) => OnIncomingCall(info);
        case Connected(s, payload, now) => OnOutgoingConnected(s, payload, now);
        case Rejected => OnOutgoingRejected();
        case Failed => OnOutgoingFailed();
        case TimedOut => OnOutgoingFailed();
        case DisconnectCallback => PeerDisconnectMainThread();
        case ReconnectTimer(m) => ReconnectNow(m);
        case PingTick(alive, sent) => SendPing(alive, sent);
        case Captured(pcm) => OnAudioCaptured(pcm);
        case SendTick(encoded, sent) => var _ := SendTurn(encoded, sent);
        case Receive(input, decoded) =>
          if input.Arrived? {
            DispatchPacket(input.packet, decoded);
          } else {
            ReceiveEnded(input);
          }
        case LateEnd(closed) => LateEnd(closed);
      }
    }
  }

  function SendEvents(turns: seq<(Option<Bytes>, bool)>): (events: seq<Event>)
    ensures |events| == |turns|
  {
    seq(|turns|, i requires 0 <= i < |turns| => SendTick(turns[i].0, turns[i].1))
  }

  lemma NextTurn(c: Config, v: View, turns: seq<(Option<Bytes>, bool)>, i: nat)
    requires i < |turns|
    ensures Run(c, v, SendEvents(turns)[i..])
         == Run(c, Step(c, v, SendTick(turns[i].0, turns[i].1)), SendEvents(turns)[i + 1..])
  {
    assert SendEvents(turns)[i..][1..] == SendEvents(turns)[i + 1..];
  }

  /** What a finished read of a whole stream means for the receiving loop. */
  function ReceiveEvents(read: (seq<Packet>, ReadResult), decoded: nat -> Option<Bytes>, n: nat): seq<Event>
    decreases |read.0|
  {
    if read.0 == [] then [Receive(if read.1.Eof? then PeerClosed else BadPacket, None)]
    else [Receive(Arrived(read.0[0]), decoded(n))] + ReceiveEvents((read.0[1..], read.1), decoded, n + 1)
  }

  /** What one read does: its packet is handled, or the loop ends. */
  function AfterRead(c: Config, v: View, read: ReadResult, decoded: Option<Bytes>): View
    requires Receiving(v)
  {
    match read
    case Received(packet) => DoReceive(c, v, Arrived(packet), decoded)
    case Eof => DoReceive(c, v, PeerClosed, None)
    case Malformed => DoReceive(c, v, BadPacket, None)
  }

  /** Reading one packet and handling it is the first step of handling the whole stream. */
  lemma ReadAhead(c: Config, v: View, stream: Bytes, decoded: nat -> Option<Bytes>, n: nat)
    requires Receiving(v)
    ensures var (read, rest) := ReadOne(stream);
            Run(c, v, ReceiveEvents(ReadAllFrom(stream), decoded, n))
            == if read.Received? then
                 Run(c, AfterRead(c, v, read, decoded(n)), ReceiveEvents(ReadAllFrom(rest), decoded, n + 1))
               else AfterRead(c, v, read, None)
  {
    var (read, rest) := ReadOne(stream);
    var events := ReceiveEvents(ReadAllFrom(stream), decoded, n);
    if read.Received? {
      assert ReadAllFrom(stream).0[1..] == ReadAllFrom(rest).0;
      assert events[1..] == ReceiveEvents(ReadAllFrom(rest), decoded, n + 1);
    } else {
      assert events[1..] == [];
    }
  }

  lemma {:induction false} DeadSenderIsStill(c: Config, v: View, events: seq<Event>)
    requires v.pending.senders == 0 && forall i :: 0 <= i < |events| ==> events[i].SendTick?
    ensures Run(c, v, events) == v
    decreases |events|
  {
    if events != [] {
      DeadSenderIsStill(c, v, events[1..]);
    }
  }

  /** The framework delivers only what is pending. */
  ghost predicate Due(v: View, e: Event) {
    match e
    case Connected(_, _, _) => v.pending.dials > 0
    case Rejected => v.pending.dials > 0
    case Failed => v.pending.dials > 0
    case TimedOut => v.pending.dials > 0
    case DisconnectCallback => v.pending.callbacks > 0
    case ReconnectTimer(_) => v.pending.timers > 0
    case SendTick(_, _) => v.pending.senders > 0
    case Receive(_, _) => Receiving(v)
    case LateEnd(_) => v.pending.orphans > 0
    case _ => true
  }
}
