/**
 * The call manager of torcall/core/call_manager.py as a state machine.  A step is one main-thread callback, one turn
 * of the sending loop or one packet taken by the receiving loop; Step says what each does to the state.
 */
module CallModel {
  import opened Wrappers
  import opened Bytes
  import opened Primitives
  import opened Protocol
  import opened Crypto
  import opened PeerVerification
  import Contacts

  datatype CallState = Idle | Dialing | Ringing | Connecting | InCall

  /** Settings that do not change while the program runs. */
  datatype Config = Config(
    suite: Suite,
    identityPrivate: Bytes,
    words: WordList,
    requireSas: bool,
    constantRate: bool,
    maxAttempts: int
  )

  const QUEUE_SIZE := 50

  type Key32 = b: Bytes | |b| == 32 witness Zeros(32)
  type Nonce16 = b: Bytes | |b| == 16 witness Zeros(16)

  /** What the operating system supplies for a handshake. */
  datatype Material = Material(private: Key32, nonce: Nonce16)

  /** An item of the send queue: a captured frame, or the None that stops the loop. */
  datatype Slot = Pcm(frame: Bytes) | Stop

  datatype Incoming = Incoming(sock: nat, payload: Bytes, address: string)

  /** Per-connection state: all of it goes in a teardown. */
  datatype Link = Link(
    sock: Option<nat>,
    client: bool,
    myPublic: Option<Bytes>,
    sendSeq: nat,
    lastRecvSeq: int,
    sendThread: bool,
    sendRunning: bool,
    recvRunning: bool,
    sasConfirmed: bool
  )

  /** What the secret buffers of a connection hold. */
  datatype Keys = Keys(private: Option<Bytes>, send: Option<Bytes>, recv: Option<Bytes>)

  const NO_KEYS := Keys(None, None, None)

  /** Per-call state: kept while reconnecting, cleared when the call is over. */
  datatype Call = Call(
    peer: Option<string>,
    incoming: Option<Incoming>,
    pendingSas: Option<seq<string>>,
    pendingIdentity: Option<PeerIdentity>,
    isCaller: bool,
    userEnded: bool,
    attempts: nat,
    reconnecting: bool,
    busy: bool
  )

  /**
   * What is still to happen: posted disconnect callbacks, reconnect timers, dials in flight, live loops, and reads of
   * receiving loops that a teardown has left behind.
   */
  datatype Pending = Pending(callbacks: nat, timers: nat, dials: nat, senders: nat, receivers: nat, orphans: nat)

  /** An audio packet handed to the socket, wholly or (when the send failed) perhaps partly. */
  datatype Sent = Sent(key: Bytes, sequence: nat, pcm: Bytes, opus: Bytes, whole: bool)

  datatype Accepted = Accepted(sequence: int, opus: Bytes)

  /** What an observer has seen so far. */
  datatype History = History(
    wire: seq<Sent>,
    accepted: seq<Accepted>,
    played: seq<Bytes>,
    /** Send keys, in the order they were installed. */
    sendKeys: seq<Bytes>,
    /** Secret buffers replaced by another without being zeroed. */
    leaks: nat,
    handshake: Option<Bytes>,
    shownSas: Option<seq<string>>,
    shownIdentity: Option<PeerIdentity>
  )

  datatype View = View(
    state: CallState,
    local: Option<string>,
    link: Link,
    keys: Keys,
    call: Call,
    queue: seq<Slot>,
    contacts: Contacts.Store,
    pending: Pending,
    history: History
  )

  function NoLink(c: Config): Link {
    Link(None, false, None, 0, -1, false, false, false, !c.requireSas)
  }

  const NO_CALL := Call(None, None, None, None, false, false, 0, false, false)

  function Init(c: Config, contacts: Contacts.Store): View {
    View(Idle, None, NoLink(c), NO_KEYS, NO_CALL, [], contacts, Pending(0, 0, 0, 0, 0, 0),
         History([], [], [], [], 0, None, None, None))
  }

  /** What the receiving loop gets from one read. */
  datatype Input = Arrived(packet: Packet) | PeerClosed | SocketError | BadPacket

  datatype Event =
    // the user
    | PlaceCall(address: string, material: Material)
    | CancelCall(stopped: bool)
    | AcceptCall(material: Material, now: int, sent: bool)
    | RejectCall
    | EndCall
    | ConfirmSas
    | RenameContact(address: string, name: string)
    | RemoveContact(address: string)
    // the network
    | SetLocalAddress(address: string)
    | IncomingCall(info: Incoming)
    | Connected(sock: nat, payload: Bytes, now: int)
    | Rejected
    | Failed
    | TimedOut
    // the event loop
    | DisconnectCallback
    | ReconnectTimer(material: Material)
    | PingTick(alive: bool, sent: bool)
    // the audio thread and the two loops
    | Captured(pcm: Bytes)
    | SendTick(encoded: Option<Bytes>, sent: bool)
    | Receive(input: Input, decoded: Option<Bytes>)
    | LateEnd(closed: bool)

  // ---------------------------------------------------------------------------
  // Cleanup and dialling
  // ---------------------------------------------------------------------------

  function Count<T>(o: Option<T>): nat {
    if o.Some? then 1 else 0
  }

  function Post(v: View, n: nat): View {
    v.(pending := v.pending.(callbacks := v.pending.callbacks + n))
  }

  function Teardown(c: Config, v: View): View {
    v.(link := NoLink(c),
       keys := NO_KEYS,
       queue := if v.link.sendThread && |v.queue| < QUEUE_SIZE then v.queue + [Stop] else v.queue,
       pending := v.pending.(senders := 0, receivers := 0, orphans := v.pending.orphans + v.pending.receivers))
  }

  function Cleanup(c: Config, v: View): View {
    Teardown(c, v).(call := NO_CALL)
  }

  /** Clean up and go idle: the end of a call for whatever reason. */
  function Finish(c: Config, v: View): View {
    Cleanup(c, v).(state := Idle)
  }

  predicate KnowsPeer(call: Call) {
    call.peer.Some? && call.peer.value != ""
  }

  predicate HasPeer(v: View) {
    KnowsPeer(v.call)
  }

  /** The address that an answer is checked under. */
  function PeerAddress(call: Call): string {
    if KnowsPeer(call) then call.peer.value else "unknown"
  }

  function NewPrivate(c: Config, v: View, m: Material): View {
    v.(link := v.link.(myPublic := Some(c.suite.publicOf(m.private))),
       keys := v.keys.(private := Some(m.private)),
       history := v.history.(leaks := v.history.leaks + Count(v.keys.private)))
  }

  /** The client object is there before the handshake is built; an exception in between leaves no dial behind. */
  function Dial(c: Config, v: View, m: Material): View {
    var x := NewPrivate(c, v, m);
    var w := x.(link := x.link.(client := true));
    var handshake := BuildHandshake(c.suite, c.identityPrivate, w.link.myPublic.value, m.nonce, v.local);
    if handshake.None? then w
    else
      w.(pending := w.pending.(dials := w.pending.dials + 1), history := w.history.(handshake := handshake))
  }

  /** The drop was nobody's wish, we know whom to call, and the budget is not spent. */
  predicate MayReconnect(c: Config, call: Call) {
    !call.userEnded && call.isCaller && KnowsPeer(call) && call.attempts < c.maxAttempts
  }

  function AttemptReconnect(c: Config, v: View): View {
    var w := Teardown(c, v.(call := v.call.(attempts := v.call.attempts + 1, reconnecting := true)));
    w.(state := Dialing, pending := w.pending.(timers := w.pending.timers + 1))
  }

  // ---------------------------------------------------------------------------
  // Setting up a session
  // ---------------------------------------------------------------------------

  function Verify(c: Config, v: View, payload: Bytes, address: string, now: int): (Verdict, View) {
    var verdict := VerifyPeer(c.suite, now, v.contacts, payload, address);
    (verdict,
     v.(contacts := verdict.store,
        call := if verdict.outcome.Some? then v.call.(pendingIdentity := verdict.outcome) else v.call))
  }

  function StartSession(v: View): View {
    v.(state := InCall,
       queue := [],
       link := v.link.(sendThread := true, sendRunning := true, recvRunning := true),
       pending := v.pending.(senders := v.pending.senders + 1, receivers := v.pending.receivers + 1),
       history := v.history.(
         shownSas := if v.call.pendingSas.Some? then v.call.pendingSas else v.history.shownSas,
         shownIdentity := if v.call.pendingIdentity.Some? then v.call.pendingIdentity else v.history.shownIdentity),
       call := v.call.(pendingSas := None, pendingIdentity := None))
  }

  /** Keys of their own, counters from the start, and the words to show. */
  function Equip(c: Config, v: View, keys: SessionKeys, sock: nat, ephemeral: Bytes): View {
    v.(link := v.link.(sock := Some(sock), sendSeq := 0, lastRecvSeq := -1),
       keys := v.keys.(send := Some(keys.send), recv := Some(keys.recv)),
       call := v.call.(pendingSas := Some(ComputeSas(c.suite, c.words, v.link.myPublic.GetOr([]), ephemeral)),
                       busy := true),
       history := v.history.(sendKeys := v.history.sendKeys + [keys.send],
                             leaks := v.history.leaks + Count(v.keys.send) + Count(v.keys.recv)))
  }

  function Install(c: Config, v: View, keys: SessionKeys, sock: nat, ephemeral: Bytes): View {
    StartSession(Equip(c, v, keys, sock, ephemeral))
  }

  /** None stands for the exception that a missing private key or a refused exchange raises. */
  function Agree(c: Config, v: View, ephemeral: Bytes, isCaller: bool): Option<SessionKeys> {
    if v.keys.private.None? then None
    else DeriveSessionKeys(c.suite, v.keys.private.value, ephemeral, isCaller)
  }

  /** How an answer ends, ours or the peer's: passed over, cleaned up, broken off by an exception, or in a call. */
  datatype Outcome =
    | Ignored
    | Refused(at: View)
    | Raised(at: View)
    | Entered(at: View, keys: SessionKeys, sock: nat, ephemeral: Bytes)

  function Conclude(c: Config, v: View, o: Outcome): View {
    match o
    case Ignored => v
    case Refused(x) => Finish(c, x)
    case Raised(x) => x
    case Entered(x, keys, sock, ephemeral) => Install(c, x, keys, sock, ephemeral)
  }

  // ---------------------------------------------------------------------------
  // Main-thread events
  // ---------------------------------------------------------------------------

  function DoPlaceCall(c: Config, v: View, address: string, m: Material): View {
    if v.state != Idle then v
    else
      Dial(c, v.(state := Dialing,
                 call := v.call.(isCaller := true, userEnded := false, attempts := 0, reconnecting := false,
                                 peer := Some(address))), m)
  }

  function DoCancelCall(c: Config, v: View, stopped: bool): View {
    var dials := if v.link.client && stopped && v.pending.dials > 0 then v.pending.dials - 1 else v.pending.dials;
    Finish(c, v.(call := v.call.(userEnded := true), pending := v.pending.(dials := dials)))
  }

  /** The server turns a caller away while busy, the manager whenever it is not idle. */
  function DoIncomingCall(v: View, info: Incoming): View {
    if v.call.busy || v.state != Idle then v
    else v.(state := Ringing, call := v.call.(incoming := Some(info), peer := Some(info.address)))
  }

  /** The waiting caller is taken, and a key made for the answer. */
  function TakeIncoming(c: Config, v: View, m: Material): View {
    NewPrivate(c, v.(call := v.call.(isCaller := false, userEnded := false, attempts := 0, reconnecting := false,
                                     incoming := None)), m)
  }

  /** accept_call up to the point where it is decided how it ends. */
  function AcceptOutcome(c: Config, v: View, m: Material, now: int, sent: bool): Outcome {
    if v.state != Ringing || v.call.incoming.None? then Ignored
    else
      var info := v.call.incoming.value;
      var (verdict, w) := Verify(c, TakeIncoming(c, v, m), info.payload, info.address, now);
      ReplyOutcome(c, w, info.sock, verdict.ephemeral, m, sent)
  }

  /** The rest of an answer, once the caller is verified or refused. */
  function ReplyOutcome(c: Config, v: View, sock: nat, ephemeral: Option<Bytes>, m: Material, sent: bool): Outcome {
    if ephemeral.None? then Refused(v)
    else
      var handshake := BuildHandshake(c.suite, c.identityPrivate, v.link.myPublic.GetOr([]), m.nonce, v.local);
      if handshake.None? || |handshake.value| > MAX_PAYLOAD then Raised(v)
      else if !sent then Refused(v)
      else JoinOutcome(c, v.(history := v.history.(handshake := handshake)), sock, ephemeral.value)
  }

  /** Our answer has been sent. */
  function JoinOutcome(c: Config, v: View, sock: nat, ephemeral: Bytes): Outcome {
    match Agree(c, v, ephemeral, false)
    case None => Raised(v)
    case Some(keys) => Entered(v, keys, sock, ephemeral)
  }

  function DoRejectCall(v: View): View {
    v.(state := Idle, call := v.call.(incoming := None))
  }

  function DoEndCall(c: Config, v: View): View {
    if v.state != InCall && v.state != Connecting then v else Finish(c, v)
  }

  function LoseDial(v: View): View
    requires v.pending.dials > 0
  {
    v.(pending := v.pending.(dials := v.pending.dials - 1))
  }

  /** _on_outgoing_connected up to the point where it is decided how it ends. */
  function ConnectedOutcome(c: Config, v: View, sock: nat, payload: Bytes, now: int): Outcome {
    if v.pending.dials == 0 then Ignored
    else
      var address := PeerAddress(v.call);
      var (verdict, w) := Verify(c, LoseDial(v), payload, address, now);
      DialOutcome(c, w, sock, verdict.ephemeral)
  }

  /** The rest of an answered dial, once the peer is verified or refused. */
  function DialOutcome(c: Config, v: View, sock: nat, ephemeral: Option<Bytes>): Outcome {
    if ephemeral.None? then Refused(v)
    else
      match Agree(c, v, ephemeral.value, true)
      case None => Raised(v)
      case Some(keys) => Entered(v.(call := v.call.(reconnecting := false, attempts := 0)), keys, sock, ephemeral.value)
  }

  /** _on_outgoing_failed and _on_outgoing_timeout. */
  function DoFailed(c: Config, v: View): View
    requires v.pending.dials > 0
  {
    var w := LoseDial(v);
    if w.call.reconnecting && MayReconnect(c, w.call) then AttemptReconnect(c, w) else Finish(c, w)
  }

  function DoDisconnect(c: Config, v: View): View
    requires v.pending.callbacks > 0
  {
    var w := v.(pending := v.pending.(callbacks := v.pending.callbacks - 1));
    if w.state == Idle then w
    else if MayReconnect(c, w.call) then AttemptReconnect(c, w)
    else Finish(c, w)
  }

  function DoReconnect(c: Config, v: View, m: Material): View
    requires v.pending.timers > 0
  {
    var w := v.(pending := v.pending.(timers := v.pending.timers - 1));
    if w.call.userEnded || !HasPeer(w) then w else Dial(c, w, m)
  }

  function DoPing(v: View, alive: bool, sent: bool): View {
    if v.link.sock.None? || v.state != InCall || (alive && sent) then v else Post(v, 1)
  }

  // ---------------------------------------------------------------------------
  // The audio channel
  // ---------------------------------------------------------------------------

  /** The bounded queue drops its oldest item when full. */
  function DoCaptured(v: View, pcm: Bytes): View {
    if v.state != InCall || v.keys.send.None? || !v.link.sasConfirmed then v
    else if |v.queue| < QUEUE_SIZE then v.(queue := v.queue + [Pcm(pcm)])
    else v.(queue := v.queue[1..] + [Pcm(pcm)])
  }

  function EndSender(v: View): View
    requires v.pending.senders > 0
  {
    v.(pending := v.pending.(senders := v.pending.senders - 1))
  }

  function AudioPayload(s: Suite, key: Bytes, sequence: nat, opus: Bytes): Option<Bytes> {
    match PadFrame(opus, TRAFFIC_PAD_BLOCK)
    case None => None
    case Some(padded) =>
      var nonce := MakeNonce(sequence);
      var payload := nonce + s.seal(key, padded, nonce);
      if |payload| > MAX_PAYLOAD then None else Some(payload)
  }

  /**
   * _transmit_frame and what the loop makes of its answer.  A frame that cannot be padded or packed raises before
   * anything is sent, and the loop goes on; a refused or failed send ends the loop and posts a disconnect.
   */
  function Transmit(c: Config, v: View, pcm: Bytes, opus: Bytes, sent: bool): View
    requires v.pending.senders > 0 && v.keys.send.Some?
  {
    var key := v.keys.send.value;
    if v.link.sendSeq >= MAX_SEQUENCE then EndSender(Post(v, 2))
    else if AudioPayload(c.suite, key, v.link.sendSeq, opus).None? then v
    else
      var w := v.(history := v.history.(wire := v.history.wire + [Sent(key, v.link.sendSeq, pcm, opus, sent)]));
      if sent then w.(link := w.link.(sendSeq := w.link.sendSeq + 1)) else EndSender(Post(w, 1))
  }

  /** One turn of the sending loop; encoded is what the codec makes of the frame, None when it raises. */
  function DoSendTick(c: Config, v: View, encoded: Option<Bytes>, sent: bool): View
    requires v.pending.senders > 0
  {
    if !v.link.sendRunning || v.keys.send.None? || v.link.sock.None? then EndSender(v)
    else if v.queue == [] then
      if c.constantRate && encoded.Some? then Transmit(c, v, SILENCE, encoded.value, sent) else v
    else
      var w := v.(queue := v.queue[1..]);
      match v.queue[0]
      case Stop => EndSender(w)
      case Pcm(frame) => if encoded.Some? then Transmit(c, w, frame, encoded.value, sent) else w
  }

  function OpenAudio(s: Suite, key: Bytes, payload: Bytes): Option<Bytes> {
    var nonce := if |payload| < NONCE_SIZE then payload else payload[..NONCE_SIZE];
    var ciphertext := if |payload| < NONCE_SIZE then [] else payload[NONCE_SIZE..];
    match s.open(key, ciphertext, nonce)
    case None => None
    case Some(padded) => UnpadFrame(padded)
  }

  /** decoded is what the codec makes of the frame, None when it raises. */
  function HandleAudio(c: Config, v: View, p: Packet, decoded: Option<Bytes>): View {
    if v.keys.recv.None? || p.sequence <= v.link.lastRecvSeq then v
    else
      match OpenAudio(c.suite, v.keys.recv.value, p.payload)
      case None => v
      case Some(opus) =>
        if decoded.None? then v
        else
          v.(link := v.link.(lastRecvSeq := p.sequence),
             history := v.history.(
               accepted := v.history.accepted + [Accepted(p.sequence, opus)],
               played := if v.link.sasConfirmed then v.history.played + [decoded.value] else v.history.played))
  }

  predicate Receiving(v: View) {
    v.pending.receivers > 0 && v.link.recvRunning && v.link.sock.Some?
  }

  function EndReceiver(v: View): View
    requires v.pending.receivers > 0
  {
    v.(pending := v.pending.(receivers := v.pending.receivers - 1))
  }

  /** One turn of the receiving loop.  An unreadable packet ends the loop without a disconnect. */
  function DoReceive(c: Config, v: View, input: Input, decoded: Option<Bytes>): View
    requires Receiving(v)
  {
    match input
    case PeerClosed => EndReceiver(Post(v, 1))
    case SocketError => EndReceiver(Post(v, 1))
    case BadPacket => EndReceiver(v)
    case Arrived(p) =>
      match p.msgType
      case AudioData => HandleAudio(c, v, p, decoded)
      case CallEnd => Post(v.(call := v.call.(userEnded := true)), 1)
      case _ => v
  }

  /**
   * The read of a loop whose connection is gone ends: with None, which posts a disconnect whatever has happened since,
   * or with an error, which does so only while a loop is meant to run.
   */
  function DoLateEnd(v: View, closed: bool): View
    requires v.pending.orphans > 0
  {
    var w := v.(pending := v.pending.(orphans := v.pending.orphans - 1));
    if closed || v.link.recvRunning then Post(w, 1) else w
  }

  // ---------------------------------------------------------------------------
  // Steps and runs
  // ---------------------------------------------------------------------------

  /** An event that is not due (a timer without a timer, a tick without a loop) changes nothing. */
  function Step(c: Config, v: View, e: Event): View {
    match e
    case PlaceCall(address, m) => DoPlaceCall(c, v, address, m)
    case CancelCall(stopped) => DoCancelCall(c, v, stopped)
    case AcceptCall(m, now, sent) => Conclude(c, v, AcceptOutcome(c, v, m, now, sent))
    case RejectCall => DoRejectCall(v)
    case EndCall => DoEndCall(c, v)
    case ConfirmSas => v.(link := v.link.(sasConfirmed := true))
    case RenameContact(a, name) => v.(contacts := Contacts.SetName(v.contacts, a, name))
    case RemoveContact(a) => v.(contacts := Contacts.Remove(v.contacts, a))
    case SetLocalAddress(a) => v.(local := if a == "" then None else Some(a))
    case IncomingCall(info) => DoIncomingCall(v, info)
    case Connected(sock, payload, now) => Conclude(c, v, ConnectedOutcome(c, v, sock, payload, now))
    case Rejected => if v.pending.dials > 0 then Finish(c, LoseDial(v)) else v
    case Failed => if v.pending.dials > 0 then DoFailed(c, v) else v
    case TimedOut => if v.pending.dials > 0 then DoFailed(c, v) else v
    case DisconnectCallback => if v.pending.callbacks > 0 then DoDisconnect(c, v) else v
    case ReconnectTimer(m) => if v.pending.timers > 0 then DoReconnect(c, v, m) else v
    case PingTick(alive, sent) => DoPing(v, alive, sent)
    case Captured(pcm) => DoCaptured(v, pcm)
    case SendTick(encoded, sent) => if v.pending.senders > 0 then DoSendTick(c, v, encoded, sent) else v
    case Receive(input, decoded) => if Receiving(v) then DoReceive(c, v, input, decoded) else v
    case LateEnd(closed) => if v.pending.orphans > 0 then DoLateEnd(v, closed) else v
  }

  function Run(c: Config, v: View, events: seq<Event>): View
    decreases |events|
  {
    if events == [] then v else Run(c, Step(c, v, events[0]), events[1..])
  }

  lemma {:induction false} RunAppend(c: Config, v: View, a: seq<Event>, b: seq<Event>)
    ensures Run(c, v, a + b) == Run(c, Run(c, v, a), b)
    decreases |a|
  {
    if a == [] {
      assert a + b == b;
    } else {
      assert (a + b)[0] == a[0] && (a + b)[1..] == a[1..] + b;
      RunAppend(c, Step(c, v, a[0]), a[1..], b);
    }
  }

  lemma RunOne(c: Config, v: View, e: Event)
    ensures Run(c, v, [e]) == Step(c, v, e)
  {
    assert [e][1..] == [];
    var w := Step(c, v, e);
    assert Run(c, w, []) == w;
  }

  lemma RunLast(c: Config, v: View, events: seq<Event>)
    requires events != []
    ensures Run(c, v, events) == Step(c, Run(c, v, events[..|events| - 1]), events[|events| - 1])
  {
    var init, last := events[..|events| - 1], events[|events| - 1];
    assert init + [last] == events;
    RunAppend(c, v, init, [last]);
    RunOne(c, Run(c, v, init), last);
  }

  function RunTwo(c: Config, v: View, a: Event, b: Event): (w: View)
    ensures w == Run(c, v, [a, b])
  {
    assert [a, b][1..] == [b] && [b][1..] == [];
    assert Run(c, Step(c, v, a), [b]) == Step(c, Step(c, v, a), b);
    Step(c, Step(c, v, a), b)
  }
}
