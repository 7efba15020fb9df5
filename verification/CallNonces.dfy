/** No two audio packets are ever put on the wire under the same key and nonce, and when exactly that could fail. */
module CallNonces {
  import opened Wrappers
  import opened Bytes
  import opened Primitives
  import opened Protocol
  import opened Crypto
  import opened CallModel
  import opened CallOutcomes
  import opened CallLifecycle
  import opened CallOrderly
  import Contacts

  /** The packet on the wire for an entry of the sending history. */
  function WirePacket(s: Suite, e: Sent): Packet
    requires AudioPayload(s, e.key, e.sequence, e.opus).Some?
  {
    Packet(AudioData, e.sequence, AudioPayload(s, e.key, e.sequence, e.opus).value)
  }

  /** The nonce that a packet carries and is sealed under. */
  function NonceOf(p: Packet): Bytes {
    if |p.payload| < NONCE_SIZE then p.payload else p.payload[..NONCE_SIZE]
  }

  /** Everything on the wire could be packed. */
  ghost predicate Packable(s: Suite, wire: seq<Sent>) {
    forall i :: 0 <= i < |wire| ==> AudioPayload(s, wire[i].key, wire[i].sequence, wire[i].opus).Some?
  }

  /** Packets sent under a key. */
  function SentUnder(wire: seq<Sent>, key: Bytes): nat {
    if wire == [] then 0
    else SentUnder(wire[..|wire| - 1], key) + (if wire[|wire| - 1].key == key then 1 else 0)
  }

  /** Within one key the sequence numbers are exactly 0, 1, 2, ... and stay below the limit. */
  ghost predicate Numbered(wire: seq<Sent>) {
    forall i :: 0 <= i < |wire| ==> wire[i].sequence == SentUnder(wire[..i], wire[i].key) < MAX_SEQUENCE
  }

  ghost predicate NonceInvariant(c: Config, v: View) {
    && Numbered(v.history.wire) && Packable(c.suite, v.history.wire)
    && v.pending.senders <= 1
    && (v.keys.send.None? ==> v.link.sendSeq == 0 && v.pending.senders == 0)
    && (v.keys.send.Some? ==> v.link.sendSeq <= SentUnder(v.history.wire, v.keys.send.value))
    && (v.pending.senders == 1 ==> v.link.sendSeq == SentUnder(v.history.wire, v.keys.send.GetOr([])))
  }

  /** The step is an answer that ends in a call. */
  predicate Installs(c: Config, v: View, e: Event) {
    IsAnswer(e) && OutcomeOf(c, v, e).Entered?
  }

  /** A step that installs keys finds no sending loop alive, and nothing has been sent under its key. */
  predicate FreshKeys(c: Config, v: View, e: Event) {
    Installs(c, v, e) ==> v.pending.senders == 0 && SentUnder(v.history.wire, OutcomeOf(c, v, e).keys.send) == 0
  }

  lemma NumberedAppend(wire: seq<Sent>, s: Sent)
    requires Numbered(wire) && s.sequence == SentUnder(wire, s.key) < MAX_SEQUENCE
    ensures Numbered(wire + [s])
    ensures forall k :: SentUnder(wire + [s], k) == SentUnder(wire, k) + (if s.key == k then 1 else 0)
  {
    var w := wire + [s];
    assert w[..|w| - 1] == wire;
    forall i | 0 <= i < |w| ensures w[i].sequence == SentUnder(w[..i], w[i].key) < MAX_SEQUENCE {
      if i < |wire| {
        assert w[..i] == wire[..i];
      } else {
        assert w[..i] == wire;
      }
    }
  }

  lemma TransmitKeepsNonces(c: Config, v: View, pcm: Bytes, opus: Bytes, sent: bool)
    requires NonceInvariant(c, v) && v.pending.senders > 0
    ensures NonceInvariant(c, Transmit(c, v, pcm, opus, sent))
  {
    var w, s := Transmit(c, v, pcm, opus, sent), Sent(v.keys.send.value, v.link.sendSeq, pcm, opus, sent);
    TransmitAppends(c, v, pcm, opus, sent);
    if w.history.wire == v.history.wire + [s] {
      AppendKeepsNonces(c, v, w, s);
    }
  }

  /** At most one packet goes out, under the number of the moment; the number moves on only if the loop lives on. */
  lemma TransmitAppends(c: Config, v: View, pcm: Bytes, opus: Bytes, sent: bool)
    requires v.pending.senders > 0 && v.keys.send.Some?
    ensures var w, s := Transmit(c, v, pcm, opus, sent), Sent(v.keys.send.value, v.link.sendSeq, pcm, opus, sent);
            && w.keys == v.keys
            && if w.history.wire == v.history.wire + [s] then Follows(c, v, w, s)
               else
                 w.history.wire == v.history.wire && w.link.sendSeq == v.link.sendSeq
                 && w.pending.senders in {v.pending.senders, v.pending.senders - 1}
  {
  }

  predicate Follows(c: Config, v: View, w: View, s: Sent) {
    && s.sequence == v.link.sendSeq < MAX_SEQUENCE && v.keys.send == Some(s.key)
    && AudioPayload(c.suite, s.key, s.sequence, s.opus).Some?
    && (|| (w.link.sendSeq == s.sequence + 1 && w.pending.senders == v.pending.senders)
        || (w.link.sendSeq == s.sequence && w.pending.senders == v.pending.senders - 1))
  }

  lemma AppendKeepsNonces(c: Config, v: View, w: View, s: Sent)
    requires NonceInvariant(c, v) && v.pending.senders > 0 && w.keys == v.keys
    requires Follows(c, v, w, s) && w.history.wire == v.history.wire + [s]
    ensures NonceInvariant(c, w)
  {
    NumberedAppend(v.history.wire, s);
  }

  lemma SendTickKeepsNonces(c: Config, v: View, e: Event)
    requires NonceInvariant(c, v) && e.SendTick?
    ensures NonceInvariant(c, Step(c, v, e))
  {
    if v.pending.senders > 0 && v.link.sendRunning && v.link.sock.Some? && e.encoded.Some? {
      if v.queue == [] {
        TransmitKeepsNonces(c, v, SILENCE, e.encoded.value, e.sent);
      } else if v.queue[0].Pcm? {
        TransmitKeepsNonces(c, v.(queue := v.queue[1..]), v.queue[0].frame, e.encoded.value, e.sent);
      }
    }
  }

  /** The wire is left alone; key, counter and loops stay or are cleared. */
  predicate SendsNothing(v: View, w: View) {
    && w.history.wire == v.history.wire && w.history.sendKeys == v.history.sendKeys
    && (|| (w.keys.send == v.keys.send && w.link.sendSeq == v.link.sendSeq && w.pending.senders == v.pending.senders)
        || (w.keys.send.None? && w.link.sendSeq == 0 && w.pending.senders == 0))
  }

  /** The wire is left alone; a key is installed, the counter starts at 0 and one more loop runs on an empty queue. */
  predicate Starts(v: View, w: View, key: Bytes) {
    && w.history.wire == v.history.wire && w.history.sendKeys == v.history.sendKeys + [key]
    && w.keys.send == Some(key) && w.link.sendSeq == 0 && w.pending.senders == v.pending.senders + 1
    && w.queue == [] && w.link.sendRunning && w.link.sock.Some?
  }

  lemma OutcomeSendsNothing(c: Config, v: View, e: Event, o: Outcome)
    requires IsAnswer(e) && Fits(v, e, o)
    ensures if o.Entered? then Starts(v, Conclude(c, v, o), o.keys.send) else SendsNothing(v, Conclude(c, v, o))
  {
  }

  lemma TurnsSendNothing(c: Config, v: View, e: Event)
    requires e.Receive? || e.PingTick? || e.Captured?
    ensures SendsNothing(v, Step(c, v, e))
  {
  }

  lemma LossSendsNothing(c: Config, v: View, e: Event)
    requires EndsCalls(e)
    ensures SendsNothing(v, Step(c, v, e))
  {
  }

  lemma OtherStepsSendNothing(c: Config, v: View, e: Event)
    requires !e.SendTick?
    ensures if Installs(c, v, e) then Starts(v, Step(c, v, e), OutcomeOf(c, v, e).keys.send)
            else SendsNothing(v, Step(c, v, e))
  {
    if IsAnswer(e) {
      AnswerConcludes(c, v, e);
      OutcomeSendsNothing(c, v, e, OutcomeOf(c, v, e));
    } else if EndsCalls(e) {
      LossSendsNothing(c, v, e);
    } else if e.Receive? || e.PingTick? || e.Captured? {
      TurnsSendNothing(c, v, e);
    }
  }

  lemma TransmitKeepsPackable(c: Config, v: View, pcm: Bytes, opus: Bytes, sent: bool)
    requires v.pending.senders > 0 && v.keys.send.Some? && Packable(c.suite, v.history.wire)
    ensures Packable(c.suite, Transmit(c, v, pcm, opus, sent).history.wire)
  {
  }

  lemma StepKeepsPackable(c: Config, v: View, e: Event)
    requires Packable(c.suite, v.history.wire)
    ensures Packable(c.suite, Step(c, v, e).history.wire)
  {
    if !e.SendTick? {
      OtherStepsSendNothing(c, v, e);
    } else if v.pending.senders > 0 && v.link.sendRunning && v.keys.send.Some? && v.link.sock.Some?
              && e.encoded.Some?
    {
      if v.queue == [] {
        TransmitKeepsPackable(c, v, SILENCE, e.encoded.value, e.sent);
      } else if v.queue[0].Pcm? {
        TransmitKeepsPackable(c, v.(queue := v.queue[1..]), v.queue[0].frame, e.encoded.value, e.sent);
      }
    }
  }

  /** Only frames that can be packed reach the wire, in every run. */
  lemma {:induction false} RunKeepsPackable(c: Config, v: View, events: seq<Event>)
    requires Packable(c.suite, v.history.wire)
    ensures Packable(c.suite, Run(c, v, events).history.wire)
    decreases |events|
  {
    if events != [] {
      StepKeepsPackable(c, v, events[0]);
      RunKeepsPackable(c, Step(c, v, events[0]), events[1..]);
    }
  }

  /** Exactly the steps with fresh keys keep the invariant. */
  lemma {:induction false} StepKeepsNoncesIff(c: Config, v: View, e: Event)
    requires NonceInvariant(c, v)
    ensures NonceInvariant(c, Step(c, v, e)) <==> FreshKeys(c, v, e)
  {
    if e.SendTick? {
      SendTickKeepsNonces(c, v, e);
    } else {
      OtherStepsSendNothing(c, v, e);
    }
  }

  ghost predicate AllFresh(c: Config, v: View, events: seq<Event>)
    decreases |events|
  {
    events == [] || (FreshKeys(c, v, events[0]) && AllFresh(c, Step(c, v, events[0]), events[1..]))
  }

  lemma {:induction false} RunKeepsNonces(c: Config, v: View, events: seq<Event>)
    requires NonceInvariant(c, v) && AllFresh(c, v, events)
    ensures NonceInvariant(c, Run(c, v, events))
    decreases |events|
  {
    if events != [] {
      StepKeepsNoncesIff(c, v, events[0]);
      RunKeepsNonces(c, Step(c, v, events[0]), events[1..]);
    }
  }

  lemma {:induction false} SentUnderGrows(wire: seq<Sent>, i: nat, j: nat)
    requires i < j <= |wire|
    ensures SentUnder(wire[..i], wire[i].key) < SentUnder(wire[..j], wire[i].key)
    decreases j
  {
    assert wire[..j][..j - 1] == wire[..j - 1];
    if i < j - 1 {
      SentUnderGrows(wire, i, j - 1);
    }
  }

  /** No two packets share key and nonce. */
  ghost predicate NoRepeat(s: Suite, wire: seq<Sent>)
    requires Packable(s, wire)
  {
    forall i, j :: 0 <= i < j < |wire| && wire[i].key == wire[j].key ==>
                     NonceOf(WirePacket(s, wire[i])) != NonceOf(WirePacket(s, wire[j]))
  }

  /** The nonce on the wire is the number of the packet, in twelve bytes. */
  lemma PacketCarriesNumber(s: Suite, e: Sent)
    requires AudioPayload(s, e.key, e.sequence, e.opus).Some?
    ensures NonceOf(WirePacket(s, e)) == MakeNonce(e.sequence)
    ensures e.sequence < 0x1_0000_0000_0000_0000 ==> ReadBigEndian(NonceOf(WirePacket(s, e))) == e.sequence
  {
    var nonce := NonceOf(WirePacket(s, e));
    assert nonce == MakeNonce(e.sequence);
    if e.sequence < 0x1_0000_0000_0000_0000 {
      NonceReadsBack(e.sequence);
    }
  }

  lemma NumberedNeverRepeats(s: Suite, wire: seq<Sent>)
    requires Numbered(wire) && Packable(s, wire)
    ensures NoRepeat(s, wire)
  {
    forall i, j | 0 <= i < j < |wire| && wire[i].key == wire[j].key
      ensures NonceOf(WirePacket(s, wire[i])) != NonceOf(WirePacket(s, wire[j]))
    {
      SentUnderGrows(wire, i, j);
      PacketCarriesNumber(s, wire[i]);
      PacketCarriesNumber(s, wire[j]);
    }
  }

  /**
   * Over any run from the start, with calls, failed sends, drops and reconnects: within a key the sequence numbers
   * are 0, 1, 2, ... below the limit, and no two packets share key and nonce.
   */
  lemma NoncesUnique(c: Config, contacts: Contacts.Store, events: seq<Event>)
    requires AllFresh(c, Init(c, contacts), events)
    ensures var wire := Run(c, Init(c, contacts), events).history.wire;
            Numbered(wire) && Packable(c.suite, wire) && NoRepeat(c.suite, wire)
  {
    RunKeepsNonces(c, Init(c, contacts), events);
    NumberedNeverRepeats(c.suite, Run(c, Init(c, contacts), events).history.wire);
  }

  /** The counter goes back only together with a change of key. */
  lemma {:induction false} CounterResetsWithKey(c: Config, v: View, e: Event)
    requires NonceInvariant(c, v) && FreshKeys(c, v, e)
    ensures Step(c, v, e).link.sendSeq < v.link.sendSeq ==> Step(c, v, e).keys.send != v.keys.send
  {
    if !e.SendTick? {
      OtherStepsSendNothing(c, v, e);
    }
  }

  // ---------------------------------------------------------------------------
  // Orderly runs
  // ---------------------------------------------------------------------------

  lemma {:induction false} UnusedKeySentNothing(wire: seq<Sent>, key: Bytes)
    requires forall i :: 0 <= i < |wire| ==> wire[i].key != key
    ensures SentUnder(wire, key) == 0
  {
    if wire != [] {
      UnusedKeySentNothing(wire[..|wire| - 1], key);
    }
  }

  /** Everything on the wire was sent under a key that was installed. */
  ghost predicate KeysRecorded(v: View) {
    && (forall i :: 0 <= i < |v.history.wire| ==> v.history.wire[i].key in v.history.sendKeys)
    && (v.keys.send.Some? ==> v.keys.send.value in v.history.sendKeys)
  }

  lemma TransmitKeepsKeys(c: Config, v: View, pcm: Bytes, opus: Bytes, sent: bool)
    requires v.pending.senders > 0 && v.keys.send.Some? && KeysRecorded(v)
    ensures var w := Transmit(c, v, pcm, opus, sent);
            w.history.sendKeys == v.history.sendKeys && w.keys == v.keys && KeysRecorded(w)
  {
  }

  lemma SendTickKeepsKeys(c: Config, v: View, e: Event)
    requires e.SendTick? && KeysRecorded(v)
    ensures var w := Step(c, v, e); w.history.sendKeys == v.history.sendKeys && w.keys == v.keys && KeysRecorded(w)
  {
    if v.pending.senders > 0 && v.link.sendRunning && v.keys.send.Some? && v.link.sock.Some? && e.encoded.Some? {
      if v.queue == [] {
        TransmitKeepsKeys(c, v, SILENCE, e.encoded.value, e.sent);
      } else if v.queue[0].Pcm? {
        TransmitKeepsKeys(c, v.(queue := v.queue[1..]), v.queue[0].frame, e.encoded.value, e.sent);
      }
    }
  }

  lemma StepKeepsKeysRecorded(c: Config, v: View, e: Event)
    requires KeysRecorded(v)
    ensures KeysRecorded(Step(c, v, e))
    ensures Step(c, v, e).history.sendKeys
         == v.history.sendKeys + (if Installs(c, v, e) then [OutcomeOf(c, v, e).keys.send] else [])
  {
    if e.SendTick? {
      SendTickKeepsKeys(c, v, e);
    } else {
      OtherStepsSendNothing(c, v, e);
    }
  }

  ghost predicate Distinct(keys: seq<Bytes>) {
    forall i, j :: 0 <= i < j < |keys| ==> keys[i] != keys[j]
  }

  /** In an orderly run keys are installed only when no loop is alive, so different keys are all it needs. */
  lemma {:induction false} OrderlyRunIsFresh(c: Config, v: View, events: seq<Event>)
    requires Calm(v) && AllOrderly(c, v, events) && KeysRecorded(v) && Distinct(Run(c, v, events).history.sendKeys)
    ensures AllFresh(c, v, events)
    ensures v.history.sendKeys <= Run(c, v, events).history.sendKeys
    decreases |events|
  {
    if events != [] {
      var e := events[0];
      var w := Step(c, v, e);
      OrderlyStep(c, v, e);
      StepKeepsKeysRecorded(c, v, e);
      OrderlyRunIsFresh(c, w, events[1..]);
      if Installs(c, v, e) {
        AnswerConcludes(c, v, e);
        NewKeyUnused(v.history, OutcomeOf(c, v, e).keys.send, Run(c, v, events).history.sendKeys);
      }
    }
  }

  lemma NewKeyUnused(h: History, key: Bytes, keys: seq<Bytes>)
    requires forall i :: 0 <= i < |h.wire| ==> h.wire[i].key in h.sendKeys
    requires h.sendKeys + [key] <= keys && Distinct(keys)
    ensures SentUnder(h.wire, key) == 0
  {
    assert keys[|h.sendKeys|] == key;
    forall i | 0 <= i < |h.sendKeys| ensures h.sendKeys[i] != key {
      assert h.sendKeys[i] == keys[i];
    }
    UnusedKeySentNothing(h.wire, key);
  }

  /** Orderly runs whose sessions all have different keys never repeat a nonce under a key. */
  lemma OrderlyNoncesUnique(c: Config, contacts: Contacts.Store, events: seq<Event>)
    requires AllOrderly(c, Init(c, contacts), events)
    requires Distinct(Run(c, Init(c, contacts), events).history.sendKeys)
    ensures var wire := Run(c, Init(c, contacts), events).history.wire;
            Packable(c.suite, wire) && NoRepeat(c.suite, wire)
  {
    OrderlyRunIsFresh(c, Init(c, contacts), events);
    NoncesUnique(c, contacts, events);
  }

  // ---------------------------------------------------------------------------
  // Without fresh keys
  // ---------------------------------------------------------------------------

  /** Two turns on an empty queue: a failed send, and another loop that goes on under the same number. */
  lemma FailedThenSent(c: Config, v: View, opus: Bytes, other: Bytes)
    requires v.pending.senders > 0 && v.queue == [] && c.constantRate
    requires v.link.sendRunning && v.link.sock.Some? && v.keys.send.Some? && v.link.sendSeq < MAX_SEQUENCE
    requires AudioPayload(c.suite, v.keys.send.value, v.link.sendSeq, opus).Some?
    requires AudioPayload(c.suite, v.keys.send.value, v.link.sendSeq, other).Some?
    ensures var key, k := v.keys.send.value, v.link.sendSeq;
            var w := Run(c, v, [SendTick(Some(opus), false), SendTick(Some(other), true)]);
            var second := if v.pending.senders > 1 then [Sent(key, k, SILENCE, other, true)] else [];
            w.history.wire == v.history.wire + [Sent(key, k, SILENCE, opus, false)] + second
  {
    var w := RunTwo(c, v, SendTick(Some(opus), false), SendTick(Some(other), true));
  }

  lemma SamePairRepeats(s: Suite, wire: seq<Sent>, i: nat, j: nat)
    requires Packable(s, wire)
    requires i < j < |wire| && wire[i].key == wire[j].key && wire[i].sequence == wire[j].sequence
    ensures !NoRepeat(s, wire)
  {
    PacketCarriesNumber(s, wire[i]);
    PacketCarriesNumber(s, wire[j]);
  }

  /** Whatever was sent under a key, the first of it carries number 0. */
  lemma {:induction false} SomethingCarriesZero(wire: seq<Sent>, key: Bytes)
    requires Numbered(wire) && SentUnder(wire, key) > 0
    ensures exists i :: 0 <= i < |wire| && wire[i].key == key && wire[i].sequence == 0
  {
    var init, last := wire[..|wire| - 1], wire[|wire| - 1];
    if SentUnder(init, key) > 0 {
      forall j | 0 <= j < |init| ensures init[j].sequence == SentUnder(init[..j], init[j].key) < MAX_SEQUENCE {
        assert init[..j] == wire[..j];
      }
      SomethingCarriesZero(init, key);
      var i :| 0 <= i < |init| && init[i].key == key && init[i].sequence == 0;
      assert wire[i] == init[i];
    } else {
      assert wire[|wire| - 1].key == key && last.sequence == SentUnder(init, key);
    }
  }

  /**
   * Keys that are not fresh do repeat a number: after a step that installs them, two turns of the sending loops leave
   * two packets on the wire with one key and one nonce.
   */
  lemma {:induction false} UnfreshKeysRepeat(c: Config, v: View, e: Event, opus: Bytes, other: Bytes)
    requires NonceInvariant(c, v) && !FreshKeys(c, v, e) && c.constantRate
    requires var key := OutcomeOf(c, v, e).keys.send;
             AudioPayload(c.suite, key, 0, opus).Some? && AudioPayload(c.suite, key, 0, other).Some?
    ensures var wire := Run(c, Step(c, v, e), [SendTick(Some(opus), false), SendTick(Some(other), true)]).history.wire;
            Packable(c.suite, wire) && !NoRepeat(c.suite, wire)
  {
    var w, key, n := Step(c, v, e), OutcomeOf(c, v, e).keys.send, |v.history.wire|;
    OtherStepsSendNothing(c, v, e);
    FailedThenSent(c, w, opus, other);
    var wire := Run(c, w, [SendTick(Some(opus), false), SendTick(Some(other), true)]).history.wire;
    assert wire[n] == Sent(key, 0, SILENCE, opus, false) && wire[..n] == v.history.wire;
    StepKeepsPackable(c, v, e);
    RunKeepsPackable(c, w, [SendTick(Some(opus), false), SendTick(Some(other), true)]);
    ZeroAgainRepeats(c.suite, v.history.wire, wire, key);
  }

  /** A packet with number 0 under a key repeats when something was sent under the key, or when another one follows. */
  lemma ZeroAgainRepeats(s: Suite, before: seq<Sent>, wire: seq<Sent>, key: Bytes)
    requires Numbered(before) && Packable(s, wire) && |before| < |wire| && wire[..|before|] == before
    requires wire[|before|].key == key && wire[|before|].sequence == 0
    requires SentUnder(before, key) > 0
          || (|before| + 1 < |wire| && wire[|before| + 1].key == key && wire[|before| + 1].sequence == 0)
    ensures !NoRepeat(s, wire)
  {
    if SentUnder(before, key) > 0 {
      SomethingCarriesZero(before, key);
      var i :| 0 <= i < |before| && before[i].key == key && before[i].sequence == 0;
      assert wire[i] == wire[..|before|][i];
      SamePairRepeats(s, wire, i, |before|);
    } else {
      SamePairRepeats(s, wire, |before|, |before| + 1);
    }
  }
}
