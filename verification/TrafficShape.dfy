/**
 * What an onlooker can tell from the stream of packets: in constant-rate mode neither their number nor their lengths
 * say whether anybody speaks.
 */
module TrafficShape {
  import opened Bytes
  import opened Primitives
  import opened Protocol
  import opened Crypto
  import opened CallModel
  import opened CallNonces
  import opened CallQueue

  /** What a padded frame, its nonce and its tag take on the wire. */
  lemma {:induction false} PayloadLength(s: Suite, key: Bytes, sequence: nat, opus: Bytes, blocks: nat)
    requires FixedSizes(s) && 1 <= blocks <= 255 && 256 * (blocks - 1) < |opus| + 2 <= 256 * blocks
    ensures AudioPayload(s, key, sequence, opus).Some?
    ensures |AudioPayload(s, key, sequence, opus).value| == 12 + 256 * blocks + 16
  {
    PaddedLengthIsLeast(opus, TRAFFIC_PAD_BLOCK, blocks);
  }

  /** Exactly the frames of up to 65278 bytes can be sent. */
  lemma {:induction false} SendableIff(s: Suite, key: Bytes, sequence: nat, opus: Bytes)
    requires FixedSizes(s)
    ensures AudioPayload(s, key, sequence, opus).Some? <==> |opus| <= 65278
  {
    if |opus| <= 0xFFFF {
      LargestFrame(s, key, MakeNonce(sequence), opus);
    }
  }

  /** A frame as the codec makes them: it fits one block with its length in front. */
  predicate Ordinary(opus: Bytes) {
    |opus| <= 254
  }

  /** Captures, and turns that send an ordinary frame. */
  predicate Steady(events: seq<Event>) {
    forall i :: 0 <= i < |events| ==>
                  || events[i].Captured?
                  || (&& events[i].SendTick? && events[i].sent
                      && events[i].encoded.Some? && Ordinary(events[i].encoded.value))
  }

  function Ticks(events: seq<Event>): nat {
    if events == [] then 0 else (if events[0].SendTick? then 1 else 0) + Ticks(events[1..])
  }

  ghost predicate NoStop(queue: seq<Slot>) {
    forall i :: 0 <= i < |queue| ==> queue[i].Pcm?
  }

  /** Packets of one length, under successive numbers. */
  ghost predicate Uniform(s: Suite, wire: seq<Sent>, from: nat, key: Bytes, sequence: nat) {
    forall i :: from <= i < |wire| ==>
      && wire[i].key == key && wire[i].sequence == sequence + (i - from) && wire[i].whole
      && AudioPayload(s, key, wire[i].sequence, wire[i].opus).Some?
      && |WirePacket(s, wire[i]).payload| == 284
  }

  lemma {:induction false} OneTick(c: Config, v: View, key: Bytes, e: Event)
    requires FixedSizes(c.suite) && c.constantRate && Talking(v, key) && NoStop(v.queue)
    requires v.link.sendSeq < MAX_SEQUENCE
    requires e.SendTick? && e.sent && e.encoded.Some? && Ordinary(e.encoded.value)
    ensures var w := Step(c, v, e);
            && Talking(w, key) && NoStop(w.queue) && w.link.sendSeq == v.link.sendSeq + 1
            && |w.history.wire| == |v.history.wire| + 1 && w.history.wire[..|v.history.wire|] == v.history.wire
            && Uniform(c.suite, w.history.wire, |v.history.wire|, key, v.link.sendSeq)
  {
    PayloadLength(c.suite, key, v.link.sendSeq, e.encoded.value, 1);
  }

  lemma OneCapture(c: Config, v: View, key: Bytes, e: Event)
    requires e.Captured? && Talking(v, key) && NoStop(v.queue)
    ensures var w := Step(c, v, e);
            Talking(w, key) && NoStop(w.queue) && w.link == v.link && w.history == v.history
  {
  }

  /**
   * In constant-rate mode the number of packets is the number of turns and every packet has the same length, whatever
   * waits in the queue and whatever the microphone delivers in between.
   */
  lemma {:induction false} SpeechDoesNotShow(c: Config, v: View, key: Bytes, events: seq<Event>)
    requires FixedSizes(c.suite) && c.constantRate && Talking(v, key) && NoStop(v.queue) && Steady(events)
    requires v.link.sendSeq + Ticks(events) <= MAX_SEQUENCE
    ensures var w := Run(c, v, events).history.wire;
            && |w| == |v.history.wire| + Ticks(events) && w[..|v.history.wire|] == v.history.wire
            && Uniform(c.suite, w, |v.history.wire|, key, v.link.sendSeq)
    decreases |events|
  {
    if events != [] {
      var w := Step(c, v, events[0]);
      if events[0].SendTick? {
        OneTick(c, v, key, events[0]);
      } else {
        OneCapture(c, v, key, events[0]);
      }
      SpeechDoesNotShow(c, w, key, events[1..]);
      UniformOnwards(c.suite, v.history.wire, w.history.wire, Run(c, w, events[1..]).history.wire, key,
                     v.link.sendSeq, w.link.sendSeq);
    }
  }

  lemma UniformOnwards(s: Suite, a: seq<Sent>, b: seq<Sent>, end: seq<Sent>, key: Bytes, from: nat, next: nat)
    requires |a| <= |b| <= |end| && b[..|a|] == a && end[..|b|] == b && next == from + (|b| - |a|)
    requires Uniform(s, b, |a|, key, from) && Uniform(s, end, |b|, key, next)
    ensures end[..|a|] == a && Uniform(s, end, |a|, key, from)
  {
    assert end[..|a|] == end[..|b|][..|a|];
    forall i | |a| <= i < |b| ensures end[i] == b[i] {
      assert end[i] == end[..|b|][i];
    }
  }
}
