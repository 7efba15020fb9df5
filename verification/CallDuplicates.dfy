/**
 * Why the conditions of CallOrderly, CallNonces and CallSas are needed: a drop that both loops report posts two
 * disconnect callbacks, these start two re-dial timers, and the second timer dials again whatever the first one has led
 * to.  Every run here starts with the program.
 */
module CallDuplicates {
  import opened Wrappers
  import opened Bytes
  import opened Primitives
  import opened Protocol
  import opened Crypto
  import opened PeerVerification
  import opened CallModel
  import opened CallOutcomes
  import opened CallLifecycle
  import opened CallNonces
  import opened CallSas

  /** A sound set-up that may re-dial at least twice and keeps sending between words. */
  ghost predicate Usable(c: Config) {
    FixedSizes(c.suite) && |c.identityPrivate| == 32 && c.maxAttempts >= 2 && c.constantRate
  }

  /** The exchange of a private key with the peer's key is not refused. */
  predicate Agrees(c: Config, m: Material, peer: Key32) {
    c.suite.exchange(m.private, peer).Some?
  }

  function SendKey(c: Config, m: Material, peer: Key32): Bytes
    requires Agrees(c, m, peer) && |c.suite.hkdf(c.suite.exchange(m.private, peer).value, SESSION_INFO, 64)| == 64
  {
    DeriveSessionKeys(c.suite, m.private, peer, true).value.send
  }

  /** A caller without a local address, in whatever state, who may dial its peer again. */
  predicate Redialling(v: View) {
    v.local.None? && v.call.isCaller && HasPeer(v) && !v.call.userEnded
  }

  /** In a call whose sending loops have not sent anything yet. */
  predicate Started(v: View, key: Bytes) {
    && v.state == InCall && v.keys.send == Some(key) && v.keys.recv.Some? && v.link.sendSeq == 0 && v.queue == []
    && v.link.sendRunning && v.link.recvRunning && v.link.sock.Some? && v.link.sendThread
  }

  /** A dial goes out whenever the handshake has no address in it. */
  lemma DialGoesOut(c: Config, v: View, m: Material)
    requires Usable(c) && v.local.None?
    ensures var w := Dial(c, v, m);
            && w.pending == v.pending.(dials := v.pending.dials + 1)
            && w.keys == v.keys.(private := Some(m.private)) && w.call == v.call && w.state == v.state
            && w.local == v.local && w.queue == v.queue
            && w.link == v.link.(client := true, myPublic := Some(c.suite.publicOf(m.private)))
            && w.history == v.history.(leaks := v.history.leaks + Count(v.keys.private),
                                       handshake := w.history.handshake)
  {
    BuildSucceedsIff(c.suite, c.identityPrivate, c.suite.publicOf(m.private), m.nonce, None);
  }

  /** A peer without an identity answers: its key alone is the payload. */
  lemma DialIsAnswered(c: Config, v: View, m: Material, peer: Key32, sock: nat)
    requires Usable(c) && Agrees(c, m, peer) && Redialling(v) && v.pending.dials > 0
    requires v.keys.private == Some(m.private)
    ensures var w := Step(c, v, Connected(sock, peer, 0));
            && Started(w, SendKey(c, m, peer)) && Redialling(w) && w.call.attempts == 0
            && w.history.sendKeys == v.history.sendKeys + [SendKey(c, m, peer)]
            && w.history.wire == v.history.wire
            && w.history.leaks == v.history.leaks + Count(v.keys.send) + Count(v.keys.recv)
            && w.link.sasConfirmed == v.link.sasConfirmed
            && w.history.shownSas == Some(ComputeSas(c.suite, c.words, v.link.myPublic.GetOr([]), peer))
            && w.pending == v.pending.(dials := v.pending.dials - 1, senders := v.pending.senders + 1,
                                       receivers := v.pending.receivers + 1)
  {
    var e := Connected(sock, peer, 0);
    AnswerConcludes(c, v, e);
    assert DecodeHandshake(c.suite, peer) == Some(Handshake(peer, None, None, None, None));
    assert OutcomeOf(c, v, e).Entered?;
  }

  /** The first call of a freshly started program. */
  lemma FirstCallConnects(c: Config, address: string, m: Material, peer: Key32)
    requires Usable(c) && Agrees(c, m, peer) && address != ""
    ensures var v := Run(c, Init(c, []), [PlaceCall(address, m), Connected(0, peer, 0)]);
            && Started(v, SendKey(c, m, peer)) && Redialling(v) && v.call.attempts == 0
            && v.pending == Pending(0, 0, 0, 1, 1, 0)
            && v.history.sendKeys == [SendKey(c, m, peer)] && v.history.wire == [] && v.history.leaks == 0
  {
    var init := Init(c, []);
    var dialling := Step(c, init, PlaceCall(address, m));
    var started := init.(state := Dialing,
                         call := init.call.(isCaller := true, peer := Some(address)));
    assert dialling == Dial(c, started, m);
    DialGoesOut(c, started, m);
    DialIsAnswered(c, dialling, m, peer, 0);
    var v := RunTwo(c, init, PlaceCall(address, m), Connected(0, peer, 0));
  }

  /** The peer goes away: the receiving loop sees the end of the stream, and the send of the next frame fails. */
  lemma BothLoopsReport(c: Config, v: View, opus: Bytes, key: Bytes)
    requires Usable(c) && Started(v, key) && v.pending == Pending(0, 0, 0, 1, 1, 0)
    requires AudioPayload(c.suite, key, 0, opus).Some?
    ensures var w := Run(c, v, [Receive(PeerClosed, None), SendTick(Some(opus), false)]);
            && w == v.(pending := Pending(2, 0, 0, 0, 0, 0),
                       history := v.history.(wire := v.history.wire + [Sent(key, 0, SILENCE, opus, false)]))
  {
    var w := RunTwo(c, v, Receive(PeerClosed, None), SendTick(Some(opus), false));
  }

  /** Each of the two callbacks starts a re-dial. */
  lemma BothCallbacksRedial(c: Config, v: View)
    requires v.state == InCall && v.pending == Pending(2, 0, 0, 0, 0, 0) && Redialling(v)
    requires v.call.attempts == 0 && c.maxAttempts >= 2
    ensures var w := Run(c, v, [DisconnectCallback, DisconnectCallback]);
            && w.pending == Pending(0, 2, 0, 0, 0, 0) && w.state == Dialing && w.keys == NO_KEYS
            && Redialling(w) && w.history == v.history
  {
    var w := RunTwo(c, v, DisconnectCallback, DisconnectCallback);
  }

  lemma FailedSendRedials(c: Config, v: View, opus: Bytes, key: Bytes)
    requires Usable(c) && Started(v, key) && v.pending == Pending(0, 0, 0, 1, 1, 0) && Redialling(v)
    requires v.call.attempts == 0 && AudioPayload(c.suite, key, 0, opus).Some?
    ensures var w := Run(c, v, [SendTick(Some(opus), false), DisconnectCallback]);
            && w.pending == Pending(0, 1, 0, 0, 0, 1) && w.state == Dialing && w.keys == NO_KEYS
            && Redialling(w) && w.call.attempts == 1
            && w.history == v.history.(wire := v.history.wire + [Sent(key, 0, SILENCE, opus, false)])
  {
    var w := RunTwo(c, v, SendTick(Some(opus), false), DisconnectCallback);
  }

  // ---------------------------------------------------------------------------
  // From the start of the program
  // ---------------------------------------------------------------------------

  /** A first call, and a drop that both loops report. */
  function DoubleDrop(address: string, m: Material, peer: Key32, opus: Bytes): seq<Event> {
    [PlaceCall(address, m), Connected(0, peer, 0)]
    + [Receive(PeerClosed, None), SendTick(Some(opus), false)]
    + [DisconnectCallback, DisconnectCallback]
  }

  /** Two timers are running and nothing else. */
  predicate Dropped(v: View, key: Bytes, opus: Bytes) {
    && v.pending == Pending(0, 2, 0, 0, 0, 0) && v.state == Dialing && v.keys == NO_KEYS && Redialling(v)
    && v.history.leaks == 0 && v.history.sendKeys == [key]
    && v.history.wire == [Sent(key, 0, SILENCE, opus, false)]
  }

  lemma DoubleDropStartsTwoTimers(c: Config, address: string, m: Material, peer: Key32, opus: Bytes)
    requires Usable(c) && Agrees(c, m, peer) && address != ""
    requires AudioPayload(c.suite, SendKey(c, m, peer), 0, opus).Some?
    ensures Dropped(Run(c, Init(c, []), DoubleDrop(address, m, peer, opus)), SendKey(c, m, peer), opus)
  {
    var call := [PlaceCall(address, m), Connected(0, peer, 0)];
    var drop := [Receive(PeerClosed, None), SendTick(Some(opus), false)];
    var init := Init(c, []);
    FirstCallConnects(c, address, m, peer);
    BothLoopsReport(c, Run(c, init, call), opus, SendKey(c, m, peer));
    RunAppend(c, init, call, drop);
    BothCallbacksRedial(c, Run(c, init, call + drop));
    RunAppend(c, init, call + drop, [DisconnectCallback, DisconnectCallback]);
  }

  /**
   * One report is enough: when the send fails while the receiving loop waits for a packet, the first callback tears
   * the connection down, and the read that it leaves behind ends and posts another.
   */
  lemma ReadLeftBehindStartsTwoTimers(c: Config, address: string, m: Material, peer: Key32, opus: Bytes)
    requires Usable(c) && Agrees(c, m, peer) && address != ""
    requires AudioPayload(c.suite, SendKey(c, m, peer), 0, opus).Some?
    ensures var events := [PlaceCall(address, m), Connected(0, peer, 0)]
                          + [SendTick(Some(opus), false), DisconnectCallback] + [LateEnd(true), DisconnectCallback];
            Dropped(Run(c, Init(c, []), events), SendKey(c, m, peer), opus)
  {
    var init, call := Init(c, []), [PlaceCall(address, m), Connected(0, peer, 0)];
    var drop, late := [SendTick(Some(opus), false), DisconnectCallback], [LateEnd(true), DisconnectCallback];
    FirstCallConnects(c, address, m, peer);
    FailedSendRedials(c, Run(c, init, call), opus, SendKey(c, m, peer));
    RunAppend(c, init, call, drop);
    LateReadRedials(c, Run(c, init, call + drop));
    RunAppend(c, init, call + drop, late);
  }

  lemma LateReadRedials(c: Config, v: View)
    requires v.pending == Pending(0, 1, 0, 0, 0, 1) && v.state == Dialing && v.keys == NO_KEYS
    requires Redialling(v) && v.call.attempts < c.maxAttempts
    ensures var w := Run(c, v, [LateEnd(true), DisconnectCallback]);
            && w.pending == Pending(0, 2, 0, 0, 0, 0) && w.state == Dialing && w.keys == NO_KEYS
            && Redialling(w) && w.history == v.history
  {
    var w := RunTwo(c, v, LateEnd(true), DisconnectCallback);
  }

  /** The second of the two re-dials replaces the private key of the first, which nobody has wiped. */
  lemma SecondDialLeaksAKey(c: Config, v: View, key: Bytes, opus: Bytes, m: Material)
    requires Usable(c) && Dropped(v, key, opus)
    ensures Run(c, v, [ReconnectTimer(m), ReconnectTimer(m)]).history.leaks == 1
  {
    var w := RunTwo(c, v, ReconnectTimer(m), ReconnectTimer(m));
    var once := v.(pending := v.pending.(timers := 1));
    DialGoesOut(c, once, m);
    var again := Dial(c, once, m);
    DialGoesOut(c, again.(pending := again.pending.(timers := 0)), m);
  }

  lemma TurnedAway(c: Config, v: View, key: Bytes, opus: Bytes, m: Material)
    requires Usable(c) && Dropped(v, key, opus)
    ensures var w := Run(c, v, [ReconnectTimer(m), Rejected]);
            && w.state == Idle && w.pending == Pending(0, 1, 0, 0, 0, 0)
            && !w.call.busy && w.local.None? && w.call == NO_CALL
  {
    DialGoesOut(c, v.(pending := v.pending.(timers := 1)), m);
    var w := RunTwo(c, v, ReconnectTimer(m), Rejected);
  }

  /** When the first of the two re-dials is turned away, the second dials while a new caller waits for an answer. */
  lemma StaleTimerDialsWhileRinging(c: Config, v: View, key: Bytes, opus: Bytes, m: Material, info: Incoming)
    requires Usable(c) && Dropped(v, key, opus) && info.address != ""
    ensures var turnedAway := Run(c, v, [ReconnectTimer(m), Rejected]);
            var w := Run(c, turnedAway, [IncomingCall(info), ReconnectTimer(m)]);
            w.state == Ringing && w.keys.private.Some? && w.pending.dials == 1 && !Lifecycle(w)
  {
    TurnedAway(c, v, key, opus, m);
    var turnedAway := Run(c, v, [ReconnectTimer(m), Rejected]);
    var ringing := Step(c, turnedAway, IncomingCall(info));
    DialGoesOut(c, ringing.(pending := Pending(0, 0, 0, 0, 0, 0)), m);
    var w := RunTwo(c, turnedAway, IncomingCall(info), ReconnectTimer(m));
  }

  /** A timer that finds a peer dials, and the peer answers: keys are installed, whether or not a call is on. */
  lemma TimerInstalls(c: Config, v: View, m: Material, peer: Key32, sock: nat)
    requires Usable(c) && Agrees(c, m, peer) && Redialling(v) && v.pending.timers > 0
    ensures var w := Run(c, v, [ReconnectTimer(m), Connected(sock, peer, 0)]);
            && Started(w, SendKey(c, m, peer)) && Redialling(w)
            && w.history.sendKeys == v.history.sendKeys + [SendKey(c, m, peer)]
            && w.history.wire == v.history.wire
            && w.link.sasConfirmed == v.link.sasConfirmed
            && w.history.shownSas == Some(ComputeSas(c.suite, c.words, c.suite.publicOf(m.private), peer))
            && w.pending == v.pending.(timers := v.pending.timers - 1, senders := v.pending.senders + 1,
                                       receivers := v.pending.receivers + 1)
  {
    var dialling := Step(c, v, ReconnectTimer(m));
    DialGoesOut(c, v.(pending := v.pending.(timers := v.pending.timers - 1)), m);
    DialIsAnswered(c, dialling, m, peer, sock);
    var w := RunTwo(c, v, ReconnectTimer(m), Connected(sock, peer, 0));
  }

  /** The drop, and both re-dials answered one after the other. */
  function BothRedialsAnswered(address: string, m: Material, first: Material, second: Material, peer: Key32,
                               opus: Bytes): seq<Event>
  {
    DoubleDrop(address, m, peer, opus)
    + [ReconnectTimer(first), Connected(1, peer, 0)]
    + [ReconnectTimer(second), Connected(2, peer, 0)]
  }

  lemma SecondLoopStarts(c: Config, address: string, m: Material, first: Material, second: Material, peer: Key32,
                         opus: Bytes)
    requires Usable(c) && address != ""
    requires Agrees(c, m, peer) && Agrees(c, first, peer) && Agrees(c, second, peer)
    requires AudioPayload(c.suite, SendKey(c, m, peer), 0, opus).Some?
    ensures var v := Run(c, Init(c, []), BothRedialsAnswered(address, m, first, second, peer, opus));
            && Started(v, SendKey(c, second, peer)) && v.pending.senders == 2
            && v.history.sendKeys == [SendKey(c, m, peer), SendKey(c, first, peer), SendKey(c, second, peer)]
            && v.history.wire == [Sent(SendKey(c, m, peer), 0, SILENCE, opus, false)]
  {
    var init, drop := Init(c, []), DoubleDrop(address, m, peer, opus);
    var dial1, dial2 := [ReconnectTimer(first), Connected(1, peer, 0)], [ReconnectTimer(second), Connected(2, peer, 0)];
    DoubleDropStartsTwoTimers(c, address, m, peer, opus);
    TimerInstalls(c, Run(c, init, drop), first, peer, 1);
    RunAppend(c, init, drop, dial1);
    TimerInstalls(c, Run(c, init, drop + dial1), second, peer, 2);
    RunAppend(c, init, drop + dial1, dial2);
  }

  /**
   * From the start of the program, with any three private keys: the second re-dial connects during the call that the
   * first has led to, and then two turns put two frames, any two, on the wire under one key and one number.
   */
  lemma {:induction false} SecondLoopRepeatsNumber(
      c: Config, address: string, m: Material, first: Material, second: Material, peer: Key32,
      opus: Bytes, next: Bytes, other: Bytes)
    requires Usable(c) && address != ""
    requires Agrees(c, m, peer) && Agrees(c, first, peer) && Agrees(c, second, peer)
    requires AudioPayload(c.suite, SendKey(c, m, peer), 0, opus).Some?
    requires AudioPayload(c.suite, SendKey(c, second, peer), 0, next).Some?
    requires AudioPayload(c.suite, SendKey(c, second, peer), 0, other).Some?
    ensures var events := BothRedialsAnswered(address, m, first, second, peer, opus)
                          + [SendTick(Some(next), false), SendTick(Some(other), true)];
            var wire := Run(c, Init(c, []), events).history.wire;
            && wire == [Sent(SendKey(c, m, peer), 0, SILENCE, opus, false),
                        Sent(SendKey(c, second, peer), 0, SILENCE, next, false),
                        Sent(SendKey(c, second, peer), 0, SILENCE, other, true)]
            && Packable(c.suite, wire) && !NoRepeat(c.suite, wire)
  {
    var start := BothRedialsAnswered(address, m, first, second, peer, opus);
    var ticks := [SendTick(Some(next), false), SendTick(Some(other), true)];
    SecondLoopStarts(c, address, m, first, second, peer, opus);
    FailedThenSent(c, Run(c, Init(c, []), start), next, other);
    RunAppend(c, Init(c, []), start, ticks);
    var wire := Run(c, Init(c, []), start + ticks).history.wire;
    SamePairRepeats(c.suite, wire, 1, 2);
  }

  /** The drop, a first re-dial whose words the user confirms, and then the second re-dial. */
  function ConfirmedBetween(address: string, m: Material, first: Material, second: Material, peer: Key32, opus: Bytes)
    : seq<Event>
  {
    DoubleDrop(address, m, peer, opus)
    + [ReconnectTimer(first), Connected(1, peer, 0)]
    + [ConfirmSas]
    + [ReconnectTimer(second), Connected(2, peer, 0)]
  }

  lemma SecondSessionStartsOpen(c: Config, address: string, m: Material, first: Material, second: Material,
                                peer: Key32, opus: Bytes)
    requires Usable(c) && address != ""
    requires Agrees(c, m, peer) && Agrees(c, first, peer) && Agrees(c, second, peer)
    requires AudioPayload(c.suite, SendKey(c, m, peer), 0, opus).Some?
    ensures var v := Run(c, Init(c, []), ConfirmedBetween(address, m, first, second, peer, opus));
            && Started(v, SendKey(c, second, peer)) && v.link.sasConfirmed && v.pending.senders == 2
            && v.history.wire == [Sent(SendKey(c, m, peer), 0, SILENCE, opus, false)]
            && v.history.shownSas == Some(ComputeSas(c.suite, c.words, c.suite.publicOf(second.private), peer))
  {
    var init, drop := Init(c, []), DoubleDrop(address, m, peer, opus);
    var dial1, dial2 := [ReconnectTimer(first), Connected(1, peer, 0)], [ReconnectTimer(second), Connected(2, peer, 0)];
    DoubleDropStartsTwoTimers(c, address, m, peer, opus);
    TimerInstalls(c, Run(c, init, drop), first, peer, 1);
    RunAppend(c, init, drop, dial1);
    var call := Run(c, init, drop + dial1);
    assert [ConfirmSas][1..] == [] && Run(c, call, [ConfirmSas]) == call.(link := call.link.(sasConfirmed := true));
    RunAppend(c, init, drop + dial1, [ConfirmSas]);
    TimerInstalls(c, Run(c, init, drop + dial1 + [ConfirmSas]), second, peer, 2);
    RunAppend(c, init, drop + dial1 + [ConfirmSas], dial2);
  }

  /**
   * From the start of the program, the gate on: the words of the second session are on the screen, nobody has confirmed
   * them, and a captured frame goes out under its key.
   */
  lemma {:induction false} UnconfirmedSessionSends(
      c: Config, address: string, m: Material, first: Material, second: Material, peer: Key32, opus: Bytes,
      pcm: Bytes, frame: Bytes)
    requires Usable(c) && c.requireSas && address != ""
    requires Agrees(c, m, peer) && Agrees(c, first, peer) && Agrees(c, second, peer)
    requires AudioPayload(c.suite, SendKey(c, m, peer), 0, opus).Some?
    requires AudioPayload(c.suite, SendKey(c, second, peer), 0, frame).Some?
    ensures var start := ConfirmedBetween(address, m, first, second, peer, opus);
            var h := Run(c, Init(c, []), start + [Captured(pcm), SendTick(Some(frame), true)]).history;
            && h.shownSas == Some(ComputeSas(c.suite, c.words, c.suite.publicOf(second.private), peer))
            && h.wire == [Sent(SendKey(c, m, peer), 0, SILENCE, opus, false),
                          Sent(SendKey(c, second, peer), 0, pcm, frame, true)]
  {
    var start := ConfirmedBetween(address, m, first, second, peer, opus);
    SecondSessionStartsOpen(c, address, m, first, second, peer, opus);
    CapturedGoesOut(c, Run(c, Init(c, []), start), pcm, frame);
    RunAppend(c, Init(c, []), start, [Captured(pcm), SendTick(Some(frame), true)]);
  }

  /** Set-ups of this kind exist, with different frames. */
  lemma ToySetUp(c: Config, m: Material, peer: Key32, opus: Bytes)
    requires c.suite == ToySuite() && |c.identityPrivate| == 32 && c.maxAttempts >= 2 && c.constantRate
    requires |opus| <= 65278
    ensures Usable(c) && Agrees(c, m, peer) && AudioPayload(c.suite, SendKey(c, m, peer), 0, opus).Some?
  {
    LawsAreConsistent();
    LargestFrame(c.suite, SendKey(c, m, peer), MakeNonce(0), opus);
  }
}
