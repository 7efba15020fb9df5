/** The send pipeline: what reaches the wire is an in-order selection of what the microphone captured. */
module CallQueue {
  import opened Wrappers
  import opened Bytes
  import opened Protocol
  import opened CallModel
  import opened CallOutcomes
  import opened CallNonces
  import Contacts

  // ---------------------------------------------------------------------------
  // In-order selections
  // ---------------------------------------------------------------------------

  /** a comes out of b by leaving elements out. */
  predicate Selection<T(==)>(a: seq<T>, b: seq<T>) {
    if a == [] then true
    else if b == [] then false
    else if a[0] == b[0] then Selection(a[1..], b[1..])
    else Selection(a, b[1..])
  }

  lemma {:induction false} SelectionInLonger<T>(a: seq<T>, b: seq<T>, x: T)
    requires Selection(a, b)
    ensures Selection(a, [x] + b)
    decreases |b|, 1
  {
    assert ([x] + b)[1..] == b;
    if a != [] && a[0] == x {
      SelectionShorter(a, b);
    }
  }

  lemma {:induction false} SelectionShorter<T>(a: seq<T>, b: seq<T>)
    requires a != [] && Selection(a, b)
    ensures Selection(a[1..], b)
    decreases |b|, 0
  {
    assert b == [b[0]] + b[1..];
    if a[0] != b[0] {
      SelectionShorter(a, b[1..]);
    }
    SelectionInLonger(a[1..], b[1..], b[0]);
  }

  lemma {:induction false} SelectionTransitive<T>(a: seq<T>, b: seq<T>, d: seq<T>)
    requires Selection(a, b) && Selection(b, d)
    ensures Selection(a, d)
    decreases |d|
  {
    if a != [] {
      if b[0] == d[0] {
        if a[0] == b[0] {
          SelectionTransitive(a[1..], b[1..], d[1..]);
        } else {
          SelectionTransitive(a, b[1..], d[1..]);
        }
      } else {
        SelectionTransitive(a, b, d[1..]);
        if a[0] == d[0] {
          SelectionShorter(a, d[1..]);
        }
      }
    }
  }

  lemma {:induction false} SelectionAppend<T>(a: seq<T>, b: seq<T>, x: T)
    requires Selection(a, b)
    ensures Selection(a, b + [x]) && Selection(a + [x], b + [x])
    decreases |b|
  {
    if b == [] {
      assert a + [x] == [x] && b + [x] == [x];
    } else {
      assert (b + [x])[1..] == b[1..] + [x];
      if a != [] {
        assert (a + [x])[1..] == a[1..] + [x];
        SelectionAppend(if a[0] == b[0] then a[1..] else a, b[1..], x);
      } else {
        SelectionAppend(a, b[1..], x);
        SelectionInLonger(a + [x], b[1..] + [x], b[0]);
        assert b + [x] == [b[0]] + (b[1..] + [x]);
      }
    }
  }

  lemma {:induction false} SelectionOfItself<T>(a: seq<T>)
    ensures Selection(a, a)
  {
    if a != [] {
      SelectionOfItself(a[1..]);
    }
  }

  /** Leaving out a stretch in the middle. */
  lemma {:induction false} LeaveOut<T>(front: seq<T>, gone: seq<T>, back: seq<T>)
    ensures Selection(front + back, front + gone + back)
    decreases |front| + |gone|
  {
    if front != [] {
      assert (front + back)[1..] == front[1..] + back;
      assert (front + gone + back)[1..] == front[1..] + gone + back;
      LeaveOut(front[1..], gone, back);
    } else if gone != [] {
      LeaveOut([], gone[1..], back);
      assert [] + back == back && [] + gone[1..] + back == gone[1..] + back;
      SelectionInLonger(back, gone[1..] + back, gone[0]);
      assert [gone[0]] + (gone[1..] + back) == [] + gone + back;
    } else {
      SelectionOfItself(back);
      assert [] + back == back && [] + [] + back == back;
    }
  }

  // ---------------------------------------------------------------------------
  // Frames captured, waiting and sent
  // ---------------------------------------------------------------------------

  /** Silence is left out: the sending loop makes it up whenever it has nothing else. */
  function Sound(frame: Bytes): seq<Bytes> {
    if frame == SILENCE then [] else [frame]
  }

  function SoundOf(slot: Slot): seq<Bytes> {
    if slot.Pcm? then Sound(slot.frame) else []
  }

  function Waiting(queue: seq<Slot>): seq<Bytes> {
    if queue == [] then [] else SoundOf(queue[0]) + Waiting(queue[1..])
  }

  function SentSounds(wire: seq<Sent>): seq<Bytes> {
    if wire == [] then [] else SentSounds(wire[..|wire| - 1]) + Sound(wire[|wire| - 1].pcm)
  }

  /** Everything the microphone delivered during a run. */
  function CapturedIn(events: seq<Event>): seq<Bytes> {
    if events == [] then []
    else CapturedIn(events[..|events| - 1])
         + (if events[|events| - 1].Captured? then [events[|events| - 1].pcm] else [])
  }

  /** Sent and waiting together are an in-order selection of what was captured, and the queue is bounded. */
  ghost predicate InOrder(v: View, captured: seq<Bytes>) {
    Selection(SentSounds(v.history.wire) + Waiting(v.queue), captured) && |v.queue| <= QUEUE_SIZE
  }

  lemma {:induction false} WaitingAppend(queue: seq<Slot>, slot: Slot)
    ensures Waiting(queue + [slot]) == Waiting(queue) + SoundOf(slot)
  {
    if queue == [] {
      assert (queue + [slot])[1..] == [];
    } else {
      assert (queue + [slot])[1..] == queue[1..] + [slot];
      WaitingAppend(queue[1..], slot);
    }
  }

  /** Taking the head of the queue away leaves an in-order selection. */
  lemma HeadLeaves(sent: seq<Bytes>, queue: seq<Slot>, captured: seq<Bytes>)
    requires queue != [] && Selection(sent + Waiting(queue), captured)
    ensures Selection(sent + Waiting(queue[1..]), captured)
  {
    LeaveOut(sent, SoundOf(queue[0]), Waiting(queue[1..]));
    assert sent + SoundOf(queue[0]) + Waiting(queue[1..]) == sent + Waiting(queue);
    SelectionTransitive(sent + Waiting(queue[1..]), sent + Waiting(queue), captured);
  }

  /** A new item at the end of the queue is captured last. */
  lemma TailJoins(sent: seq<Bytes>, queue: seq<Slot>, captured: seq<Bytes>, pcm: Bytes)
    requires Selection(sent + Waiting(queue), captured)
    ensures Selection(sent + Waiting(queue + [Pcm(pcm)]), captured + [pcm])
  {
    WaitingAppend(queue, Pcm(pcm));
    SelectionAppend(sent + Waiting(queue), captured, pcm);
    assert sent + (Waiting(queue) + [pcm]) == sent + Waiting(queue) + [pcm];
    assert Waiting(queue) + [] == Waiting(queue);
  }

  lemma CaptureKeepsOrder(c: Config, v: View, captured: seq<Bytes>, pcm: Bytes)
    requires InOrder(v, captured)
    ensures InOrder(DoCaptured(v, pcm), captured + [pcm])
  {
    var sent, w := SentSounds(v.history.wire), DoCaptured(v, pcm);
    if w == v {
      SelectionAppend(sent + Waiting(v.queue), captured, pcm);
    } else if |v.queue| < QUEUE_SIZE {
      TailJoins(sent, v.queue, captured, pcm);
    } else {
      HeadLeaves(sent, v.queue, captured);
      TailJoins(sent, v.queue[1..], captured, pcm);
    }
  }

  /** A turn of the sending loop takes the head of the queue at most, and sends that or silence. */
  lemma SendTickMovesHead(c: Config, v: View, e: Event)
    requires e.SendTick?
    ensures var w := Step(c, v, e);
            || (w.queue == v.queue && (w.history.wire == v.history.wire
                  || (|w.history.wire| > 0 && w.history.wire[..|w.history.wire| - 1] == v.history.wire
                      && w.history.wire[|w.history.wire| - 1].pcm == SILENCE)))
            || (v.queue != [] && w.queue == v.queue[1..] && (w.history.wire == v.history.wire
                  || (|w.history.wire| > 0 && w.history.wire[..|w.history.wire| - 1] == v.history.wire
                      && v.queue[0] == Pcm(w.history.wire[|w.history.wire| - 1].pcm))))
  {
  }

  lemma SendTickKeepsOrder(c: Config, v: View, captured: seq<Bytes>, e: Event)
    requires e.SendTick? && InOrder(v, captured)
    ensures InOrder(Step(c, v, e), captured)
  {
    var w, sent := Step(c, v, e), SentSounds(v.history.wire);
    SendTickMovesHead(c, v, e);
    if w.queue == v.queue {
      assert SentSounds(w.history.wire) == sent;
    } else if w.history.wire == v.history.wire {
      HeadLeaves(sent, v.queue, captured);
    } else {
      HeadGoesOut(sent, v.queue);
      assert SentSounds(w.history.wire) == sent + SoundOf(v.queue[0]);
    }
  }

  lemma HeadGoesOut(sent: seq<Bytes>, queue: seq<Slot>)
    requires queue != []
    ensures sent + SoundOf(queue[0]) + Waiting(queue[1..]) == sent + Waiting(queue)
  {
    Associate(sent, SoundOf(queue[0]), Waiting(queue[1..]));
  }

  lemma Associate<T>(a: seq<T>, b: seq<T>, d: seq<T>)
    ensures a + b + d == a + (b + d)
  {
  }

  lemma OutcomeKeepsQueue(c: Config, v: View, e: Event, o: Outcome)
    requires IsAnswer(e) && Fits(v, e, o)
    ensures Conclude(c, v, o).queue in [v.queue, v.queue + [Stop], []]
    ensures Conclude(c, v, o).queue == v.queue + [Stop] ==> |v.queue| < QUEUE_SIZE
  {
  }

  lemma OtherStepsKeepQueue(c: Config, v: View, e: Event)
    requires !e.SendTick? && !e.Captured?
    ensures Step(c, v, e).queue in [v.queue, v.queue + [Stop], []]
    ensures Step(c, v, e).queue == v.queue + [Stop] ==> |v.queue| < QUEUE_SIZE
  {
    if IsAnswer(e) {
      AnswerConcludes(c, v, e);
      OutcomeKeepsQueue(c, v, e, OutcomeOf(c, v, e));
    }
  }

  lemma StepKeepsOrder(c: Config, v: View, captured: seq<Bytes>, e: Event)
    requires InOrder(v, captured)
    ensures InOrder(Step(c, v, e), captured + if e.Captured? then [e.pcm] else [])
  {
    if e.SendTick? {
      SendTickKeepsOrder(c, v, captured, e);
    } else if e.Captured? {
      CaptureKeepsOrder(c, v, captured, e.pcm);
    } else {
      OtherStepsKeepOrder(c, v, captured, e);
    }
    assert captured + [] == captured;
  }

  lemma OtherStepsKeepOrder(c: Config, v: View, captured: seq<Bytes>, e: Event)
    requires InOrder(v, captured) && !e.SendTick? && !e.Captured?
    ensures InOrder(Step(c, v, e), captured)
  {
    var sent, queue := SentSounds(v.history.wire), Step(c, v, e).queue;
    OtherStepsSendNothing(c, v, e);
    OtherStepsKeepQueue(c, v, e);
    if queue == v.queue + [Stop] {
      WaitingAppend(v.queue, Stop);
      assert Waiting(v.queue) + [] == Waiting(v.queue);
    } else if queue == [] {
      QueueDrains(sent, v.queue, captured);
    }
  }

  lemma QueueDrains(sent: seq<Bytes>, queue: seq<Slot>, captured: seq<Bytes>)
    requires Selection(sent + Waiting(queue), captured)
    ensures Selection(sent + Waiting([]), captured)
  {
    LeaveOut(sent, Waiting(queue), []);
    assert sent + [] == sent && sent + Waiting(queue) + [] == sent + Waiting(queue);
    SelectionTransitive(sent, sent + Waiting(queue), captured);
  }

  /**
   * Over any run from the start: the sounds on the wire are an in-order selection of the sounds captured, none sent
   * twice and none made up, and no more than fifty items ever wait.
   */
  lemma {:induction false} WireSelectsCaptured(c: Config, contacts: Contacts.Store, events: seq<Event>)
    ensures var v := Run(c, Init(c, contacts), events);
            && Selection(SentSounds(v.history.wire) + Waiting(v.queue), CapturedIn(events))
            && |v.queue| <= 50
    decreases |events|
  {
    if events == [] {
      assert SentSounds([]) + Waiting([]) == [];
    } else {
      var init := events[..|events| - 1];
      WireSelectsCaptured(c, contacts, init);
      StepKeepsOrder(c, Run(c, Init(c, contacts), init), CapturedIn(init), events[|events| - 1]);
      RunLast(c, Init(c, contacts), events);
    }
  }

  // ---------------------------------------------------------------------------
  // The oldest goes, the newest stays
  // ---------------------------------------------------------------------------

  function Slots(frames: seq<Bytes>): seq<Slot> {
    if frames == [] then [] else [Pcm(frames[0])] + Slots(frames[1..])
  }

  function Captures(frames: seq<Bytes>): seq<Event> {
    if frames == [] then [] else [Captured(frames[0])] + Captures(frames[1..])
  }

  /** The last items, as many as the queue holds. */
  function Newest(items: seq<Slot>): seq<Slot> {
    if |items| <= 50 then items else items[|items| - 50..]
  }

  lemma NewestOnwards(items: seq<Slot>, one: Slot, more: seq<Slot>)
    ensures Newest(Newest(items + [one]) + more) == Newest(items + ([one] + more))
  {
    Associate(items, [one], more);
    var all := items + [one];
    if |all| > QUEUE_SIZE {
      var cut := |all| - QUEUE_SIZE;
      assert (all + more)[cut..] == all[cut..] + more;
    }
  }

  lemma CaptureJoins(c: Config, v: View, pcm: Bytes)
    requires v.state == InCall && v.keys.send.Some? && v.link.sasConfirmed && |v.queue| <= QUEUE_SIZE
    ensures Step(c, v, Captured(pcm)) == v.(queue := Newest(v.queue + [Pcm(pcm)]))
    ensures |Newest(v.queue + [Pcm(pcm)])| <= QUEUE_SIZE
  {
    if |v.queue| == QUEUE_SIZE {
      assert Newest(v.queue + [Pcm(pcm)]) == v.queue[1..] + [Pcm(pcm)];
    }
  }

  /** A live loop takes the oldest item whatever becomes of it; one that cannot be sent is lost, not retried. */
  lemma TurnTakesHead(c: Config, v: View, e: Event)
    requires e.SendTick? && v.pending.senders > 0 && v.link.sendRunning && v.keys.send.Some? && v.link.sock.Some?
    ensures Step(c, v, e).queue == if v.queue == [] then [] else v.queue[1..]
  {
  }

  /** Outside a call, without a key or with the gate shut the microphone is not listened to. */
  lemma ClosedCallHearsNothing(c: Config, v: View, pcm: Bytes)
    requires v.state != InCall || v.keys.send.None? || !v.link.sasConfirmed
    ensures Step(c, v, Captured(pcm)) == v
  {
  }

  /** While the call is open and nothing is sent, the queue holds the newest of what was captured. */
  lemma {:induction false} BacklogIsNewest(c: Config, v: View, frames: seq<Bytes>)
    requires v.state == InCall && v.keys.send.Some? && v.link.sasConfirmed && |v.queue| <= QUEUE_SIZE
    ensures Run(c, v, Captures(frames)) == v.(queue := Newest(v.queue + Slots(frames)))
    decreases |frames|
  {
    if frames == [] {
      assert v.queue + Slots(frames) == v.queue;
    } else {
      var w := v.(queue := Newest(v.queue + [Pcm(frames[0])]));
      CaptureJoins(c, v, frames[0]);
      BacklogIsNewest(c, w, frames[1..]);
      NewestOnwards(v.queue, Pcm(frames[0]), Slots(frames[1..]));
      RunFirst(c, v, Captured(frames[0]), Captures(frames[1..]));
    }
  }

  lemma RunFirst(c: Config, v: View, e: Event, events: seq<Event>)
    ensures Run(c, v, [e] + events) == Run(c, Step(c, v, e), events)
  {
    assert ([e] + events)[1..] == events;
  }

  /** A turn of the sending loop that goes well. */
  predicate Delivers(c: Config, key: Bytes, sequence: nat, e: Event) {
    e.SendTick? && e.sent && e.encoded.Some? && sequence < MAX_SEQUENCE
    && AudioPayload(c.suite, key, sequence, e.encoded.value).Some?
  }

  predicate AllDeliver(c: Config, key: Bytes, sequence: nat, turns: seq<Event>)
    decreases |turns|
  {
    turns == [] || (Delivers(c, key, sequence, turns[0]) && AllDeliver(c, key, sequence + 1, turns[1..]))
  }

  /** A live sending loop. */
  predicate Talking(v: View, key: Bytes) {
    v.pending.senders > 0 && v.link.sendRunning && v.link.sock.Some? && v.keys.send == Some(key)
  }

  /** What goes out for waiting frames when every turn goes well. */
  function Outgoing(c: Config, key: Bytes, sequence: nat, frames: seq<Bytes>, turns: seq<Event>): seq<Sent>
    requires |frames| == |turns| && AllDeliver(c, key, sequence, turns)
    decreases |turns|
  {
    if frames == [] then []
    else [Sent(key, sequence, frames[0], turns[0].encoded.value, true)]
         + Outgoing(c, key, sequence + 1, frames[1..], turns[1..])
  }

  lemma DeliverHead(c: Config, v: View, key: Bytes, e: Event)
    requires Talking(v, key) && v.queue != [] && v.queue[0].Pcm? && Delivers(c, key, v.link.sendSeq, e)
    ensures Step(c, v, e)
         == v.(queue := v.queue[1..], link := v.link.(sendSeq := v.link.sendSeq + 1),
               history := v.history.(wire := v.history.wire + [Sent(key, v.link.sendSeq, v.queue[0].frame,
                                                                    e.encoded.value, true)]))
  {
  }

  /** Turns that go well put the waiting frames on the wire: all of them, in order, under successive numbers. */
  lemma {:induction false} BacklogGoesOut(c: Config, v: View, key: Bytes, frames: seq<Bytes>, turns: seq<Event>,
                                          rest: seq<Slot>)
    requires Talking(v, key) && |frames| == |turns| && v.queue == Slots(frames) + rest
    requires AllDeliver(c, key, v.link.sendSeq, turns)
    ensures Run(c, v, turns)
         == v.(queue := rest, link := v.link.(sendSeq := v.link.sendSeq + |frames|),
               history := v.history.(wire := v.history.wire + Outgoing(c, key, v.link.sendSeq, frames, turns)))
    decreases |frames|
  {
    if frames == [] {
      assert v.queue == rest && v.history.wire + [] == v.history.wire;
    } else {
      var sent := Sent(key, v.link.sendSeq, frames[0], turns[0].encoded.value, true);
      var w := v.(queue := v.queue[1..], link := v.link.(sendSeq := v.link.sendSeq + 1),
                  history := v.history.(wire := v.history.wire + [sent]));
      assert v.queue[0] == Pcm(frames[0]) && v.queue[1..] == Slots(frames[1..]) + rest;
      DeliverHead(c, v, key, turns[0]);
      BacklogGoesOut(c, w, key, frames[1..], turns[1..], rest);
      Associate(v.history.wire, [sent], Outgoing(c, key, w.link.sendSeq, frames[1..], turns[1..]));
    }
  }
}
