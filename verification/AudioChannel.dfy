/**
 * From one sending loop to the other side's player: what a receiver accepts out of everything that a lossy,
 * duplicating, reordering channel can hand it.
 */
module AudioChannel {
  import opened Wrappers
  import opened Bytes
  import opened Primitives
  import opened Protocol
  import opened Crypto
  import opened CallModel
  import opened CallOutcomes
  import opened CallLifecycle
  import opened CallNonces
  import Contacts
  import PacketReader

  /** The frames sent under a key, in order. */
  function FramesUnder(wire: seq<Sent>, key: Bytes): seq<Bytes> {
    if wire == [] then []
    else FramesUnder(wire[..|wire| - 1], key) + (if wire[|wire| - 1].key == key then [wire[|wire| - 1].opus] else [])
  }

  lemma {:induction false} FrameAt(wire: seq<Sent>, i: nat, key: Bytes)
    requires Numbered(wire)
    ensures |FramesUnder(wire, key)| == SentUnder(wire, key)
    ensures i < |wire| && wire[i].key == key ==>
              && wire[i].sequence < |FramesUnder(wire, key)|
              && FramesUnder(wire, key)[wire[i].sequence] == wire[i].opus
  {
    if wire != [] {
      var init := wire[..|wire| - 1];
      forall j | 0 <= j < |init| ensures init[j].sequence == SentUnder(init[..j], init[j].key) < MAX_SEQUENCE {
        assert init[..j] == wire[..j];
      }
      FrameAt(init, i, key);
    }
  }

  /** What a packet opens to, whatever the receiver's counter says. */
  lemma SentPacketOpens(s: Suite, e: Sent)
    requires SealOpens(s) && AudioPayload(s, e.key, e.sequence, e.opus).Some?
    ensures OpenAudio(s, e.key, WirePacket(s, e).payload) == Some(e.opus)
  {
    var padded := PadFrame(e.opus, TRAFFIC_PAD_BLOCK).value;
    var nonce := MakeNonce(e.sequence);
    var payload := WirePacket(s, e).payload;
    UnpadInvertsPad(e.opus, TRAFFIC_PAD_BLOCK);
    assert payload[..NONCE_SIZE] == nonce && payload[NONCE_SIZE..] == s.seal(e.key, padded, nonce);
  }

  /** What the channel may deliver: a verbatim copy of a sent packet, something that does not open, or no audio. */
  ghost predicate Deliverable(s: Suite, wire: seq<Sent>, key: Bytes, input: Input)
    requires Packable(s, wire)
  {
    input.Arrived? && input.packet.msgType == AudioData ==>
      || OpenAudio(s, key, input.packet.payload).None?
      || exists i :: 0 <= i < |wire| && wire[i].key == key && input.packet == WirePacket(s, wire[i])
  }

  /** The frames accepted since an earlier state carry rising numbers, each the frame sent under that number. */
  ghost predicate InOrderOf(news: seq<Accepted>, frames: seq<Bytes>) {
    && (forall j :: 0 <= j < |news| ==>
          0 <= news[j].sequence < |frames| && news[j].opus == frames[news[j].sequence])
    && (forall i, j :: 0 <= i < j < |news| ==> news[i].sequence < news[j].sequence)
  }

  /** Every state of the run receives under the key, and no step installs other keys: anything else may happen. */
  ghost predicate SameSession(c: Config, v: View, key: Bytes, events: seq<Event>)
    decreases |events|
  {
    && v.keys.recv == Some(key)
    && (events != [] ==> !Installs(c, v, events[0]) && SameSession(c, Step(c, v, events[0]), key, events[1..]))
  }

  /** Whatever reaches the receiver comes from the channel. */
  ghost predicate FromChannel(s: Suite, wire: seq<Sent>, key: Bytes, events: seq<Event>)
    requires Packable(s, wire)
  {
    forall i :: 0 <= i < |events| && events[i].Receive? ==> Deliverable(s, wire, key, events[i].input)
  }

  /** A packet that does not open moves nothing, and least of all the replay counter. */
  lemma UndecryptableMovesNothing(c: Config, v: View, p: Packet, decoded: Option<Bytes>)
    requires p.msgType == AudioData
    requires v.keys.recv.Some? ==> OpenAudio(c.suite, v.keys.recv.value, p.payload).None?
    ensures Step(c, v, Receive(Arrived(p), decoded)) == v
  {
  }

  lemma ReceiveStep(c: Config, v: View, e: Event, wire: seq<Sent>, key: Bytes)
    requires SealOpens(c.suite) && Numbered(wire) && Packable(c.suite, wire)
    requires v.keys.recv == Some(key)
    requires e.Receive? && Deliverable(c.suite, wire, key, e.input)
    ensures var w := Step(c, v, e);
            && w.keys.recv == v.keys.recv
            && (|| (w.history.accepted == v.history.accepted && w.link.lastRecvSeq == v.link.lastRecvSeq)
                || (&& w.link.lastRecvSeq > v.link.lastRecvSeq
                    && 0 <= w.link.lastRecvSeq < |FramesUnder(wire, key)|
                    && w.history.accepted == v.history.accepted
                         + [Accepted(w.link.lastRecvSeq, FramesUnder(wire, key)[w.link.lastRecvSeq])]))
  {
    if e.input.Arrived? && e.input.packet.msgType == AudioData
       && OpenAudio(c.suite, key, e.input.packet.payload).Some?
    {
      var i :| 0 <= i < |wire| && wire[i].key == key && e.input.packet == WirePacket(c.suite, wire[i]);
      SentPacketOpens(c.suite, wire[i]);
      FrameAt(wire, i, key);
    }
  }

  lemma OutcomeInSession(c: Config, v: View, e: Event, o: Outcome)
    requires IsAnswer(e) && Fits(v, e, o) && !o.Entered? && Conclude(c, v, o).keys.recv.Some?
    ensures Listens(v, Conclude(c, v, o)) && Conclude(c, v, o).link.sasConfirmed == v.link.sasConfirmed
  {
  }

  /** The receiving side stands where it stood. */
  predicate Listens(v: View, w: View) {
    && w.history.accepted == v.history.accepted && w.history.played == v.history.played
    && w.link.lastRecvSeq == v.link.lastRecvSeq && w.link.sock == v.link.sock
    && w.link.recvRunning == v.link.recvRunning && w.pending.receivers == v.pending.receivers
  }

  lemma SendTickListens(c: Config, v: View, e: Event)
    requires e.SendTick?
    ensures Listens(v, Step(c, v, e)) && Step(c, v, e).link.sasConfirmed == v.link.sasConfirmed
  {
  }

  lemma LossInSession(c: Config, v: View, e: Event)
    requires EndsCalls(e) && Step(c, v, e).keys.recv.Some?
    ensures Listens(v, Step(c, v, e)) && Step(c, v, e).link.sasConfirmed == v.link.sasConfirmed
  {
  }

  lemma DialListens(c: Config, v: View, e: Event)
    requires e.PlaceCall? || e.ReconnectTimer?
    ensures Listens(v, Step(c, v, e)) && Step(c, v, e).link.sasConfirmed == v.link.sasConfirmed
  {
  }

  /** Within a session nothing but a delivery moves the receiving side, and only the user confirms the words. */
  lemma OtherStepsListen(c: Config, v: View, e: Event)
    requires !e.Receive? && !Installs(c, v, e) && Step(c, v, e).keys.recv.Some?
    ensures Listens(v, Step(c, v, e))
    ensures Step(c, v, e).link.sasConfirmed == (v.link.sasConfirmed || e.ConfirmSas?)
  {
    if IsAnswer(e) {
      AnswerConcludes(c, v, e);
      OutcomeInSession(c, v, e, OutcomeOf(c, v, e));
    } else if e.SendTick? {
      SendTickListens(c, v, e);
    } else if EndsCalls(e) {
      LossInSession(c, v, e);
    } else if e.PlaceCall? || e.ReconnectTimer? {
      DialListens(c, v, e);
    }
  }

  /**
   * However the channel drops, repeats, reorders and forges, and whatever the receiver does in between: what it accepts
   * in a session is an in-order selection of the frames sent under its key, each at most once, and every accepted frame
   * is the one sent under its number.  The counter ends at the last of them, where the next stretch starts.
   */
  lemma {:induction false} AcceptedInOrder(c: Config, v: View, events: seq<Event>, wire: seq<Sent>, key: Bytes)
    requires SealOpens(c.suite) && Numbered(wire) && Packable(c.suite, wire)
    requires SameSession(c, v, key, events) && FromChannel(c.suite, wire, key, events)
    ensures var w := Run(c, v, events);
            && w.keys.recv == Some(key)
            && Accepts(v.history.accepted, w.history.accepted, FramesUnder(wire, key), v.link.lastRecvSeq,
                       w.link.lastRecvSeq)
    decreases |events|
  {
    if events != [] {
      var w := Step(c, v, events[0]);
      if events[0].Receive? {
        ReceiveStep(c, v, events[0], wire, key);
      } else {
        OtherStepsListen(c, v, events[0]);
      }
      RestFromChannel(c.suite, wire, key, events);
      AcceptedInOrder(c, w, events[1..], wire, key);
      var end := Run(c, v, events);
      ChainAccepted(v.history.accepted, w.history.accepted, end.history.accepted, FramesUnder(wire, key),
                    v.link.lastRecvSeq, w.link.lastRecvSeq, end.link.lastRecvSeq);
    }
  }

  lemma RestFromChannel(s: Suite, wire: seq<Sent>, key: Bytes, events: seq<Event>)
    requires Packable(s, wire) && events != [] && FromChannel(s, wire, key, events)
    ensures FromChannel(s, wire, key, events[1..])
  {
  }

  /** From a to end an in-order selection of the frames is appended, and the counter goes from s to its last number. */
  ghost predicate Accepts(a: seq<Accepted>, end: seq<Accepted>, frames: seq<Bytes>, s: int, u: int) {
    && |a| <= |end| && end[..|a|] == a && InOrderOf(end[|a|..], frames)
    && (forall j :: |a| <= j < |end| ==> end[j].sequence > s)
    && u == if |end| == |a| then s else end[|end| - 1].sequence
  }

  /** One more acceptance in front of a later in-order selection. */
  lemma ChainAccepted(a: seq<Accepted>, b: seq<Accepted>, end: seq<Accepted>, frames: seq<Bytes>, s: int, t: int,
                      u: int)
    requires Accepts(b, end, frames, t, u)
    requires (a == b && s == t) || (s < t && 0 <= t < |frames| && b == a + [Accepted(t, frames[t])])
    ensures Accepts(a, end, frames, s, u)
  {
    assert end[..|a|] == end[..|b|][..|a|];
    if a != b {
      assert end[|a|] == end[..|b|][|a|];
      assert end[|a|..] == [end[|a|]] + end[|b|..];
      forall j | 0 <= j < |end| - |b| ensures end[|b|..][j].sequence > t {
        assert end[|b|..][j] == end[|b| + j];
      }
    }
  }

  /** What a run of a sender has put on the wire. */
  ghost function WireOf(c: Config, contacts: Contacts.Store, sending: seq<Event>): (wire: seq<Sent>)
    ensures Packable(c.suite, wire)
  {
    RunKeepsPackable(c, Init(c, contacts), sending);
    Run(c, Init(c, contacts), sending).history.wire
  }

  /** The same for two machines: any run of the sender, any session of a receiver that holds the sender's key. */
  lemma EndToEnd(c: Config, contacts: Contacts.Store, sending: seq<Event>, d: Config, receiver: View,
                 listening: seq<Event>, key: Bytes)
    requires SealOpens(c.suite) && d.suite == c.suite
    requires AllFresh(c, Init(c, contacts), sending)
    requires SameSession(d, receiver, key, listening)
    requires FromChannel(c.suite, WireOf(c, contacts, sending), key, listening)
    ensures var w := Run(d, receiver, listening);
            Accepts(receiver.history.accepted, w.history.accepted, FramesUnder(WireOf(c, contacts, sending), key),
                    receiver.link.lastRecvSeq, w.link.lastRecvSeq)
  {
    RunKeepsNonces(c, Init(c, contacts), sending);
    AcceptedInOrder(d, receiver, listening, WireOf(c, contacts, sending), key);
  }

  // ---------------------------------------------------------------------------
  // A lossless stream
  // ---------------------------------------------------------------------------

  /** The packets sent under a key, in order. */
  function PacketsUnder(s: Suite, wire: seq<Sent>, key: Bytes): seq<Packet>
    requires Packable(s, wire)
  {
    if wire == [] then []
    else
      PacketsUnder(s, wire[..|wire| - 1], key)
      + (if wire[|wire| - 1].key == key then [WirePacket(s, wire[|wire| - 1])] else [])
  }

  lemma {:induction false} PacketAt(s: Suite, wire: seq<Sent>, key: Bytes, i: nat)
    requires SealOpens(s) && Numbered(wire) && Packable(s, wire)
    ensures |PacketsUnder(s, wire, key)| == |FramesUnder(wire, key)| == SentUnder(wire, key)
    ensures i < |FramesUnder(wire, key)| ==>
              var p := PacketsUnder(s, wire, key)[i];
              && p.msgType == AudioData && p.sequence == i && InRange(p)
              && OpenAudio(s, key, p.payload) == Some(FramesUnder(wire, key)[i])
  {
    if wire != [] {
      var init, last := wire[..|wire| - 1], wire[|wire| - 1];
      forall j | 0 <= j < |init| ensures init[j].sequence == SentUnder(init[..j], init[j].key) < MAX_SEQUENCE {
        assert init[..j] == wire[..j];
      }
      PacketAt(s, init, key, i);
      SentPacketOpens(s, last);
    }
  }

  predicate BringsAudio(e: Event) {
    e.Receive? && e.input.Arrived? && e.input.packet.msgType == AudioData
  }

  /** The audio packets that arrive. */
  function AudioOf(events: seq<Event>): seq<Packet> {
    if events == [] then []
    else (if BringsAudio(events[0]) then [events[0].input.packet] else []) + AudioOf(events[1..])
  }

  /** Every read gives a packet, and the codec decodes every frame. */
  predicate Unbroken(events: seq<Event>) {
    forall i :: 0 <= i < |events| && events[i].Receive? ==>
                  events[i].input.Arrived? && (BringsAudio(events[i]) ==> events[i].decoded.Some?)
  }

  /** What the codec makes of the audio packets. */
  function DecodedOf(events: seq<Event>): seq<Bytes>
    requires Unbroken(events)
  {
    if events == [] then []
    else (if BringsAudio(events[0]) then [events[0].decoded.value] else []) + DecodedOf(events[1..])
  }

  /** What follows the moment at which the user confirms the words. */
  function AfterConfirmation(events: seq<Event>): (rest: seq<Event>)
    ensures Unbroken(events) ==> Unbroken(rest)
  {
    if events == [] then []
    else if events[0].ConfirmSas? then events[1..]
    else AfterConfirmation(events[1..])
  }

  /** What is played: everything once the words are confirmed, and nothing before. */
  function Audible(events: seq<Event>, confirmed: bool): seq<Bytes>
    requires Unbroken(events)
  {
    DecodedOf(if confirmed then events else AfterConfirmation(events))
  }

  function Opened(a: seq<Accepted>): seq<Bytes> {
    seq(|a|, i requires 0 <= i < |a| => a[i].opus)
  }

  /** The packet that carries frame number i. */
  predicate CarriesFrame(s: Suite, key: Bytes, p: Packet, i: nat, frame: Bytes) {
    p.msgType == AudioData && p.sequence == i && OpenAudio(s, key, p.payload) == Some(frame)
  }

  ghost predicate CarryAll(s: Suite, key: Bytes, packets: seq<Packet>, frames: seq<Bytes>) {
    |packets| == |frames| && forall i :: 0 <= i < |packets| ==> CarriesFrame(s, key, packets[i], i, frames[i])
  }

  lemma NextPacketArrives(c: Config, v: View, e: Event, key: Bytes, k: nat, frame: Bytes)
    requires v.keys.recv == Some(key) && Receiving(v) && v.link.lastRecvSeq == k - 1
    requires BringsAudio(e) && e.decoded.Some? && CarriesFrame(c.suite, key, e.input.packet, k, frame)
    ensures var w := Step(c, v, e);
            && w.link == v.link.(lastRecvSeq := k) && w.pending == v.pending
            && Opened(w.history.accepted) == Opened(v.history.accepted) + [frame]
            && w.history.played
               == v.history.played + if v.link.sasConfirmed then [e.decoded.value] else []
  {
  }

  lemma ControlListens(c: Config, v: View, e: Event)
    requires e.Receive? && e.input.Arrived? && !BringsAudio(e)
    ensures Listens(v, Step(c, v, e)) && Step(c, v, e).link.sasConfirmed == v.link.sasConfirmed
  {
  }

  /** Where the receiving side stands after the first k frames. */
  predicate At(v: View, key: Bytes, k: nat) {
    v.keys.recv == Some(key) && Receiving(v) && v.link.lastRecvSeq == k - 1
  }

  /** The arrivals are the packets from number k up to number last, in order. */
  predicate Continues(events: seq<Event>, packets: seq<Packet>, k: nat, last: nat) {
    k <= last <= |packets| && AudioOf(events) == packets[k..last]
  }

  lemma StreamAdvances(events: seq<Event>, packets: seq<Packet>, k: nat, last: nat)
    requires events != [] && Unbroken(events) && Continues(events, packets, k, last)
    ensures Unbroken(events[1..]) && Continues(events[1..], packets, k + FirstCount(events), last)
    ensures BringsAudio(events[0]) ==> events[0].input.packet == packets[k]
  {
    if BringsAudio(events[0]) {
      assert AudioOf(events)[0] == packets[k..last][0];
      assert AudioOf(events)[1..] == AudioOf(events[1..]);
      assert packets[k..last][1..] == packets[k + 1..last];
    } else {
      assert AudioOf(events) == AudioOf(events[1..]);
    }
  }

  /** Frames brought by the first event of a stream. */
  function FirstCount(events: seq<Event>): nat
    requires events != []
  {
    if BringsAudio(events[0]) then 1 else 0
  }

  /** What is heard of it. */
  function FirstSound(events: seq<Event>, confirmed: bool): seq<Bytes>
    requires events != [] && Unbroken(events)
  {
    if BringsAudio(events[0]) && confirmed then [events[0].decoded.value] else []
  }

  /** Frames accepted and sounds played between two moments. */
  ghost predicate Delivered(a: History, b: History, frames: seq<Bytes>, sounds: seq<Bytes>) {
    Opened(b.accepted) == Opened(a.accepted) + frames && b.played == a.played + sounds
  }

  lemma StepAdvances(c: Config, v: View, e: Event, key: Bytes, packets: seq<Packet>, frames: seq<Bytes>, k: nat)
    requires CarryAll(c.suite, key, packets, frames) && At(v, key, k) && k <= |packets|
    requires !Installs(c, v, e) && Step(c, v, e).keys.recv == Some(key) && Unbroken([e])
    requires BringsAudio(e) ==> k < |packets| && e.input.packet == packets[k]
    ensures var w, n := Step(c, v, e), k + FirstCount([e]);
            && At(w, key, n) && w.link.sasConfirmed == (v.link.sasConfirmed || e.ConfirmSas?)
            && Delivered(v.history, w.history, frames[k..n], FirstSound([e], v.link.sasConfirmed))
  {
    assert [e][0] == e;
    assert frames[k..k] == [] && (BringsAudio(e) ==> frames[k..k + 1] == [frames[k]]);
    if BringsAudio(e) {
      NextPacketArrives(c, v, e, key, k, frames[k]);
    } else if e.Receive? {
      ControlListens(c, v, e);
    } else {
      OtherStepsListen(c, v, e);
    }
  }

  lemma AudibleAdvances(events: seq<Event>, confirmed: bool)
    requires events != [] && Unbroken(events)
    ensures Audible(events, confirmed)
         == FirstSound(events, confirmed) + Audible(events[1..], confirmed || events[0].ConfirmSas?)
  {
  }

  lemma FirstAdvances(c: Config, v: View, events: seq<Event>, key: Bytes, packets: seq<Packet>, frames: seq<Bytes>,
                      k: nat, last: nat)
    requires CarryAll(c.suite, key, packets, frames) && At(v, key, k) && events != []
    requires SameSession(c, v, key, events) && Unbroken(events) && Continues(events, packets, k, last)
    ensures var w, n := Step(c, v, events[0]), k + FirstCount(events);
            && At(w, key, n) && SameSession(c, w, key, events[1..])
            && Unbroken(events[1..]) && Continues(events[1..], packets, n, last)
            && Delivered(v.history, w.history, frames[k..n], FirstSound(events, v.link.sasConfirmed))
            && Audible(events, v.link.sasConfirmed)
               == FirstSound(events, v.link.sasConfirmed) + Audible(events[1..], w.link.sasConfirmed)
  {
    assert [events[0]][0] == events[0];
    StreamAdvances(events, packets, k, last);
    StepAdvances(c, v, events[0], key, packets, frames, k);
    AudibleAdvances(events, v.link.sasConfirmed);
  }

  lemma FirstThenRest(c: Config, v: View, events: seq<Event>, key: Bytes, packets: seq<Packet>, frames: seq<Bytes>,
                      k: nat, last: nat, end: History)
    requires CarryAll(c.suite, key, packets, frames) && At(v, key, k) && events != []
    requires SameSession(c, v, key, events) && Unbroken(events) && Continues(events, packets, k, last)
    requires var w, n := Step(c, v, events[0]), k + FirstCount(events);
             n <= last && Delivered(w.history, end, frames[n..last], Audible(events[1..], w.link.sasConfirmed))
    ensures Delivered(v.history, end, frames[k..last], Audible(events, v.link.sasConfirmed))
  {
    var w := Step(c, v, events[0]);
    FirstAdvances(c, v, events, key, packets, frames, k, last);
    DeliveredOnwards(v.history, w.history, end, frames, k, k + FirstCount(events), last,
                     FirstSound(events, v.link.sasConfirmed), Audible(events[1..], w.link.sasConfirmed));
  }

  lemma {:induction false} LosslessFrom(c: Config, v: View, events: seq<Event>, key: Bytes,
                                        packets: seq<Packet>, frames: seq<Bytes>, k: nat, last: nat)
    requires CarryAll(c.suite, key, packets, frames) && At(v, key, k)
    requires SameSession(c, v, key, events) && Unbroken(events) && Continues(events, packets, k, last)
    ensures Delivered(v.history, Run(c, v, events).history, frames[k..last], Audible(events, v.link.sasConfirmed))
    decreases |events|
  {
    if events == [] {
      assert frames[k..last] == [];
    } else {
      var w, n := Step(c, v, events[0]), k + FirstCount(events);
      FirstAdvances(c, v, events, key, packets, frames, k, last);
      LosslessFrom(c, w, events[1..], key, packets, frames, n, last);
      FirstThenRest(c, v, events, key, packets, frames, k, last, Run(c, w, events[1..]).history);
    }
  }

  lemma DeliveredOnwards(a: History, b: History, end: History, frames: seq<Bytes>, k: nat, n: nat, last: nat,
                         sound: seq<Bytes>, sounds: seq<Bytes>)
    requires k <= n <= last <= |frames|
    requires Delivered(a, b, frames[k..n], sound) && Delivered(b, end, frames[n..last], sounds)
    ensures Delivered(a, end, frames[k..last], sound + sounds)
  {
    assert frames[k..last] == frames[k..n] + frames[n..last];
    Rejoin(Opened(a.accepted), frames[k..n], frames[n..last], Opened(b.accepted), Opened(end.accepted),
           frames[k..last]);
    Rejoin(a.played, sound, sounds, b.played, end.played, sound + sounds);
  }

  lemma Rejoin<T>(start: seq<T>, head: seq<T>, tail: seq<T>, mid: seq<T>, end: seq<T>, whole: seq<T>)
    requires mid == start + head && end == mid + tail && whole == head + tail
    ensures end == start + whole
  {
  }

  lemma PacketsCarryFrames(s: Suite, wire: seq<Sent>, key: Bytes)
    requires SealOpens(s) && Numbered(wire) && Packable(s, wire)
    ensures CarryAll(s, key, PacketsUnder(s, wire, key), FramesUnder(wire, key))
    ensures PacketReader.AllInRange(PacketsUnder(s, wire, key))
  {
    PacketAt(s, wire, key, 0);
    forall i | 0 <= i < |PacketsUnder(s, wire, key)|
      ensures InRange(PacketsUnder(s, wire, key)[i])
      ensures CarriesFrame(s, key, PacketsUnder(s, wire, key)[i], i, FramesUnder(wire, key)[i])
    {
      PacketAt(s, wire, key, i);
    }
  }

  lemma PrefixReadsBack(some: seq<Packet>, packets: seq<Packet>)
    requires some <= packets && PacketReader.AllInRange(packets)
    ensures PacketReader.AllInRange(some)
    ensures PacketReader.ReadAllFrom(PacketReader.EncodeAll(some)) == (some, PacketReader.Eof)
  {
    forall i | 0 <= i < |some| ensures InRange(some[i]) {
      assert some[i] == packets[i];
    }
    PacketReader.WholeStream(some);
  }

  /**
   * Over a stream that loses and reorders nothing and may end early, with control packets, the receiver's own sending,
   * pings and the confirmation of the words in between: the frames accepted are the first frames sent, and the frames
   * played are exactly those that follow the confirmation; the bytes read back as exactly those packets.
   */
  lemma LosslessStream(c: Config, contacts: Contacts.Store, sending: seq<Event>, d: Config, receiver: View,
                       listening: seq<Event>, key: Bytes)
    requires SealOpens(c.suite) && d.suite == c.suite
    requires AllFresh(c, Init(c, contacts), sending)
    requires SameSession(d, receiver, key, listening) && Receiving(receiver) && receiver.link.lastRecvSeq == -1
    requires Unbroken(listening)
    requires AudioOf(listening) <= PacketsUnder(c.suite, WireOf(c, contacts, sending), key)
    ensures var frames := FramesUnder(WireOf(c, contacts, sending), key);
            && |AudioOf(listening)| <= |frames|
            && Delivered(receiver.history, Run(d, receiver, listening).history, frames[..|AudioOf(listening)|],
                         Audible(listening, receiver.link.sasConfirmed))
    ensures PacketReader.AllInRange(AudioOf(listening))
    ensures PacketReader.ReadAllFrom(PacketReader.EncodeAll(AudioOf(listening)))
         == (AudioOf(listening), PacketReader.Eof)
  {
    var wire := WireOf(c, contacts, sending);
    var packets, frames := PacketsUnder(c.suite, wire, key), FramesUnder(wire, key);
    RunKeepsNonces(c, Init(c, contacts), sending);
    PacketsCarryFrames(c.suite, wire, key);
    var audio := AudioOf(listening);
    assert audio == packets[0..|audio|];
    LosslessFrom(d, receiver, listening, key, packets, frames, 0, |audio|);
    assert frames[0..|audio|] == frames[..|audio|];
    PrefixReadsBack(audio, packets);
  }
}
