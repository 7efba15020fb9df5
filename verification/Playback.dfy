/**
 * From the bytes on the socket to the loudspeaker: the receiving loop over a stream that is cut anywhere, and the
 * playback buffer behind it.
 */
module Playback {
  import opened Wrappers
  import opened Bytes
  import opened Primitives
  import opened Protocol
  import opened PacketReader
  import opened CallModel
  import opened CallNonces
  import opened CallQueue
  import opened CallManagers
  import opened AudioChannel
  import Jitter = JitterBuffers
  import Contacts

  // ---------------------------------------------------------------------------
  // Packets and the events that bring them
  // ---------------------------------------------------------------------------

  function AudioAmong(packets: seq<Packet>): seq<Packet> {
    if packets == [] then []
    else (if packets[0].msgType == AudioData then [packets[0]] else []) + AudioAmong(packets[1..])
  }

  /** The reads among the events. */
  function Receives(events: seq<Event>): seq<Event> {
    if events == [] then []
    else (if events[0].Receive? then [events[0]] else []) + Receives(events[1..])
  }

  /** The codec decodes every frame from packet number n on. */
  ghost predicate Decodes(packets: seq<Packet>, decoded: nat -> Option<Bytes>, n: nat) {
    forall i :: 0 <= i < |packets| && packets[i].msgType == AudioData ==> decoded(n + i).Some?
  }

  lemma {:induction false} AudioOfReceives(events: seq<Event>)
    ensures AudioOf(Receives(events)) == AudioOf(events)
    ensures Unbroken(Receives(events)) ==> Unbroken(events)
  {
    if events != [] {
      AudioOfReceives(events[1..]);
      if !events[0].Receive? {
        assert Receives(events) == Receives(events[1..]) && AudioOf(events) == AudioOf(events[1..]);
      } else {
        assert Receives(events)[0] == events[0] && Receives(events)[1..] == Receives(events[1..]);
      }
      if Unbroken(Receives(events)) {
        if events[0].Receive? {
          UnbrokenTail(Receives(events));
          assert Receives(events)[0] == events[0] && [events[0]][0] == events[0];
        }
        UnbrokenWhole(events);
      }
    }
  }

  lemma UnbrokenWhole(events: seq<Event>)
    requires events != [] && Unbroken(events[1..]) && (events[0].Receive? ==> Unbroken([events[0]]))
    ensures Unbroken(events)
  {
    forall i | 0 <= i < |events| && events[i].Receive?
      ensures events[i].input.Arrived? && (BringsAudio(events[i]) ==> events[i].decoded.Some?)
    {
      if i == 0 {
        assert [events[0]][0] == events[0];
      } else {
        assert events[1..][i - 1] == events[i];
      }
    }
  }

  lemma UnbrokenTail(events: seq<Event>)
    requires events != [] && Unbroken(events)
    ensures Unbroken(events[1..])
  {
  }

  /** The first m events of reading a stream bring its first m packets. */
  lemma {:induction false} ReadsBringPackets(packets: seq<Packet>, last: ReadResult, decoded: nat -> Option<Bytes>,
                                             n: nat, m: nat)
    requires m <= |packets| && Decodes(packets, decoded, n)
    ensures var events := ReceiveEvents((packets, last), decoded, n);
            && |events| == |packets| + 1
            && Unbroken(events[..m]) && AudioOf(events[..m]) == AudioAmong(packets[..m])
    decreases |packets|
  {
    var events := ReceiveEvents((packets, last), decoded, n);
    if packets != [] {
      forall i | 0 <= i < |packets[1..]| && packets[1..][i].msgType == AudioData ensures decoded(n + 1 + i).Some? {
        assert packets[1..][i] == packets[i + 1];
      }
      var rest := ReceiveEvents((packets[1..], last), decoded, n + 1);
      assert events == [Receive(Arrived(packets[0]), decoded(n))] + rest;
      ReadsBringPackets(packets[1..], last, decoded, n + 1, if m > 0 then m - 1 else 0);
      if m > 0 {
        assert events[..m][0] == events[0] && events[..m][1..] == rest[..m - 1];
        assert packets[..m][0] == packets[0] && packets[..m][1..] == packets[1..][..m - 1];
        assert decoded(n + 0) == decoded(n);
      }
    }
  }

  lemma {:induction false} AudioAmongPrefix(packets: seq<Packet>, m: nat)
    requires m <= |packets|
    ensures AudioAmong(packets[..m]) <= AudioAmong(packets)
  {
    if m > 0 {
      assert packets[..m][0] == packets[0] && packets[..m][1..] == packets[1..][..m - 1];
      AudioAmongPrefix(packets[1..], m - 1);
    }
  }

  // ---------------------------------------------------------------------------
  // A session over a stream of bytes
  // ---------------------------------------------------------------------------

  /** The packets on the stream: those a sender has sent under the key, in order, with anything else in between. */
  ghost predicate Carries(c: Config, contacts: Contacts.Store, sending: seq<Event>, key: Bytes, packets: seq<Packet>) {
    AllInRange(packets) && AudioAmong(packets) <= PacketsUnder(c.suite, WireOf(c, contacts, sending), key)
  }

  /** What reading the first k bytes of the encoded packets brings. */
  function Reads(packets: seq<Packet>, k: nat, decoded: nat -> Option<Bytes>): seq<Event>
    requires AllInRange(packets) && k <= |EncodeAll(packets)|
  {
    ReceiveEvents(ReadAllFrom(EncodeAll(packets)[..k]), decoded, 0)
  }

  /**
   * The stream is cut after any number of bytes, and the receiver has read any number of the packets complete in it
   * with anything of its own in between: it has accepted exactly the frames of those packets and played exactly those
   * that follow the confirmation of the words.
   */
  lemma {:induction false} StreamedSession(
      c: Config, contacts: Contacts.Store, sending: seq<Event>, d: Config, receiver: View, listening: seq<Event>,
      key: Bytes, packets: seq<Packet>, k: nat, decoded: nat -> Option<Bytes>)
    requires SealOpens(c.suite) && d.suite == c.suite && AllFresh(c, Init(c, contacts), sending)
    requires Carries(c, contacts, sending, key, packets) && k <= |EncodeAll(packets)| && Decodes(packets, decoded, 0)
    requires SameSession(d, receiver, key, listening) && Receiving(receiver) && receiver.link.lastRecvSeq == -1
    requires Receives(listening) <= Reads(packets, k, decoded)
    requires |Receives(listening)| <= CompleteWithin(packets, k)
    ensures Unbroken(listening) && AudioOf(listening) == AudioAmong(packets[..|Receives(listening)|])
    ensures var frames := FramesUnder(WireOf(c, contacts, sending), key);
            && |AudioOf(listening)| <= |frames|
            && Delivered(receiver.history, Run(d, receiver, listening).history, frames[..|AudioOf(listening)|],
                         Audible(listening, receiver.link.sasConfirmed))
  {
    var complete, m := CompleteWithin(packets, k), |Receives(listening)|;
    var events := Reads(packets, k, decoded);
    CutStream(packets, k);
    ReadsBringPackets(packets[..complete], Eof, decoded, 0, m);
    assert Receives(listening) == events[..m] && packets[..complete][..m] == packets[..m];
    AudioOfReceives(listening);
    AudioAmongPrefix(packets, m);
    LosslessStream(c, contacts, sending, d, receiver, listening, key);
  }

  // ---------------------------------------------------------------------------
  // The receiving loop of the object
  // ---------------------------------------------------------------------------

  lemma ReadKeepsKeys(c: Config, v: View, e: Event)
    requires e.Receive?
    ensures Step(c, v, e).keys == v.keys
    ensures !e.input.Arrived? ==> Step(c, v, e).history == v.history
  {
  }

  lemma {:induction false} ReadsStayInSession(c: Config, v: View, key: Bytes, events: seq<Event>)
    requires v.keys.recv == Some(key) && forall i :: 0 <= i < |events| ==> events[i].Receive?
    ensures SameSession(c, v, key, events) && Receives(events) == events
    decreases |events|
  {
    if events != [] {
      ReadKeepsKeys(c, v, events[0]);
      ReadsStayInSession(c, Step(c, v, events[0]), key, events[1..]);
    }
  }

  lemma {:induction false} ReadsAreReceives(read: (seq<Packet>, ReadResult), decoded: nat -> Option<Bytes>, n: nat)
    ensures var events := ReceiveEvents(read, decoded, n);
            && |events| == |read.0| + 1
            && (forall i :: 0 <= i < |events| ==> events[i].Receive?)
            && !events[|read.0|].input.Arrived?
    decreases |read.0|
  {
    if read.0 != [] {
      ReadsAreReceives((read.0[1..], read.1), decoded, n + 1);
    }
  }

  /** A stream that ends is reported as a drop; one that turns unreadable ends the loop without a word. */
  lemma LastReadReports(c: Config, v: View, last: ReadResult, decoded: nat -> Option<Bytes>, n: nat)
    requires Receiving(v) && !last.Received?
    ensures var w := Run(c, v, ReceiveEvents(([], last), decoded, n));
            && w.pending.receivers == v.pending.receivers - 1
            && w.pending.callbacks == v.pending.callbacks + (if last == Eof then 1 else 0)
            && w.history == v.history && w.keys == v.keys && w.state == v.state
  {
    RunOne(c, v, Receive(if last.Eof? then PeerClosed else BadPacket, None));
  }

  /** Without a confirmation among them the reads are heard altogether or not at all. */
  lemma {:induction false} ReadsAudible(events: seq<Event>, confirmed: bool)
    requires Unbroken(events) && forall i :: 0 <= i < |events| ==> events[i].Receive?
    ensures Audible(events, confirmed) == if confirmed then DecodedOf(events) else []
    decreases |events|
  {
    if events != [] && !confirmed {
      UnbrokenTail(events);
      ReadsAudible(events[1..], false);
    }
  }

  /** The reads of a whole cut stream, one after the other, up to the end of the stream. */
  lemma {:induction false} WholeReads(
      c: Config, contacts: Contacts.Store, sending: seq<Event>, d: Config, receiver: View, key: Bytes,
      packets: seq<Packet>, k: nat, decoded: nat -> Option<Bytes>)
    requires SealOpens(c.suite) && d.suite == c.suite && AllFresh(c, Init(c, contacts), sending)
    requires Carries(c, contacts, sending, key, packets) && k <= |EncodeAll(packets)| && Decodes(packets, decoded, 0)
    requires receiver.keys.recv == Some(key) && Receiving(receiver) && receiver.link.lastRecvSeq == -1
    ensures var frames, n := FramesUnder(WireOf(c, contacts, sending), key), CompleteWithin(packets, k);
            var turns, m := Reads(packets, k, decoded), |AudioAmong(packets[..CompleteWithin(packets, k)])|;
            && n < |turns| && Unbroken(turns[..n]) && m <= |frames|
            && Delivered(receiver.history, Run(d, receiver, turns).history, frames[..m],
                         if receiver.link.sasConfirmed then DecodedOf(turns[..n]) else [])
  {
    var n, turns := CompleteWithin(packets, k), Reads(packets, k, decoded);
    CutStream(packets, k);
    ReadsAreReceives((packets[..n], Eof), decoded, 0);
    ReadsStayInSession(d, receiver, key, turns[..n]);
    StreamedSession(c, contacts, sending, d, receiver, turns[..n], key, packets, k, decoded);
    ReadsAudible(turns[..n], receiver.link.sasConfirmed);
    RunLast(d, receiver, turns);
    ReadKeepsKeys(d, Run(d, receiver, turns[..n]), turns[n]);
  }

  /**
   * The object's receiving loop over a real socket, in any pieces, whose stream ends anywhere: the frames of exactly
   * the packets complete in it are accepted, and played if the words are confirmed.
   */
  method Listen(m: CallManager, stream: Socket, decoded: nat -> Option<Bytes>,
                ghost c: Config, ghost contacts: Contacts.Store, ghost sending: seq<Event>, ghost key: Bytes,
                ghost packets: seq<Packet>, ghost k: nat)
    requires m.Valid() && Receiving(m.View()) && stream.Valid()
    requires SealOpens(c.suite) && m.config.suite == c.suite && AllFresh(c, Init(c, contacts), sending)
    requires Carries(c, contacts, sending, key, packets) && k <= |EncodeAll(packets)| && Decodes(packets, decoded, 0)
    requires stream.Stream() == EncodeAll(packets)[..k]
    requires m.View().keys.recv == Some(key) && m.link.lastRecvSeq == -1
    modifies m, stream
    ensures m.Valid()
    ensures var frames, n := FramesUnder(WireOf(c, contacts, sending), key), CompleteWithin(packets, k);
            var turns, count := Reads(packets, k, decoded), |AudioAmong(packets[..CompleteWithin(packets, k)])|;
            && n < |turns| && Unbroken(turns[..n]) && count <= |frames|
            && Delivered(old(m.View()).history, m.View().history, frames[..count],
                         if old(m.link.sasConfirmed) then DecodedOf(turns[..n]) else [])
  {
    WholeReads(c, contacts, sending, m.config, m.View(), key, packets, k, decoded);
    m.RecvLoop(stream, decoded);
  }

  // ---------------------------------------------------------------------------
  // The playback buffer
  // ---------------------------------------------------------------------------

  /** The frames offered to the buffer since it was last cleared. */
  function Offered(ops: seq<Jitter.Operation>): seq<Bytes> {
    if ops == [] then []
    else
      match ops[|ops| - 1]
      case PushFrame(f) => Offered(ops[..|ops| - 1]) + [f]
      case PopFrame => Offered(ops[..|ops| - 1])
      case ClearAll => []
  }

  lemma {:induction false} ApplyLast(r: Jitter.Run, ops: seq<Jitter.Operation>)
    requires ops != []
    ensures Jitter.ApplyAll(r, ops) == Jitter.Apply(Jitter.ApplyAll(r, ops[..|ops| - 1]), ops[|ops| - 1])
    decreases |ops|
  {
    if |ops| > 1 {
      assert ops[1..][..|ops| - 2] == ops[..|ops| - 1][1..];
      ApplyLast(Jitter.Apply(r, ops[0]), ops[1..]);
    }
  }

  lemma {:induction false} AcceptedAreOffered(limits: Jitter.Limits, ops: seq<Jitter.Operation>)
    ensures Selection(Jitter.RunOf(limits, ops).accepted, Offered(ops))
    decreases |ops|
  {
    if ops != [] {
      var init := ops[..|ops| - 1];
      AcceptedAreOffered(limits, init);
      ApplyLast(Jitter.Run(Jitter.Start(limits), [], [], 0, 0, 0, 0), ops);
      if ops[|ops| - 1].PushFrame? {
        SelectionAppend(Jitter.RunOf(limits, init).accepted, Offered(init), ops[|ops| - 1].frame);
      }
    }
  }

  /** Out of the buffer, or still in it, is an in-order selection of what was offered since the last clear. */
  lemma HeardAreOffered(limits: Jitter.Limits, ops: seq<Jitter.Operation>)
    requires limits.Valid()
    ensures var r := Jitter.RunOf(limits, ops); Selection(r.delivered + r.state.buffer, Offered(ops))
  {
    Jitter.FifoConservation(limits, ops);
    AcceptedAreOffered(limits, ops);
  }

  /**
   * The whole way: a sender's frames over a stream cut anywhere, a receiver that does what it likes in between, and its
   * playback buffer with pops at any times.  What the loudspeaker has had, and what still waits, is an in-order
   * selection of what the codec made of the frames received after the confirmation of the words.
   */
  lemma {:induction false} StreamReachesLoudspeaker(
      c: Config, contacts: Contacts.Store, sending: seq<Event>, d: Config, receiver: View, listening: seq<Event>,
      key: Bytes, packets: seq<Packet>, k: nat, decoded: nat -> Option<Bytes>,
      limits: Jitter.Limits, ops: seq<Jitter.Operation>)
    requires SealOpens(c.suite) && d.suite == c.suite && AllFresh(c, Init(c, contacts), sending)
    requires Carries(c, contacts, sending, key, packets) && k <= |EncodeAll(packets)| && Decodes(packets, decoded, 0)
    requires SameSession(d, receiver, key, listening) && Receiving(receiver) && receiver.link.lastRecvSeq == -1
    requires Receives(listening) <= Reads(packets, k, decoded)
    requires |Receives(listening)| <= CompleteWithin(packets, k)
    requires limits.Valid()
    requires receiver.history.played + Offered(ops) == Run(d, receiver, listening).history.played
    ensures var r := Jitter.RunOf(limits, ops);
            Unbroken(listening)
            && Selection(r.delivered + r.state.buffer, Audible(listening, receiver.link.sasConfirmed))
  {
    StreamedSession(c, contacts, sending, d, receiver, listening, key, packets, k, decoded);
    SameTail(receiver.history.played, Offered(ops), Audible(listening, receiver.link.sasConfirmed));
    HeardAreOffered(limits, ops);
  }

  lemma SameTail<T>(start: seq<T>, a: seq<T>, b: seq<T>)
    requires start + a == start + b
    ensures a == b
  {
    assert a == (start + a)[|start|..] && b == (start + b)[|start|..];
  }
}
