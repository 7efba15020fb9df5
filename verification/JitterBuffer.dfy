/** The adaptive jitter buffer of torcall/core/audio_engine.py. */
module JitterBuffers {
  import opened Wrappers
  import opened Bytes

  type Frame = Bytes

  const STABLE_STREAK := 250
  const UNDERRUN_STREAK := 3

  /** Depths in frames. */
  datatype Limits = Limits(initial: nat, min: nat, max: nat) {
    predicate Valid() {
      1 <= min <= initial <= max
    }
  }

  /** max(1, ms / 20) of the configured 60, 40 and 200 ms. */
  const CONFIGURED := Limits(3, 2, 10)

  /** The state of a buffer, and what each operation does to it. */
  datatype State = State(
    limits: Limits,
    target: nat,
    buffer: seq<Frame>,
    prebuffering: bool,
    underruns: nat,
    stablePops: nat
  ) {
    function Push(frame: Frame): State {
      if |buffer| < limits.max * 2 then this.(buffer := buffer + [frame]) else this
    }

    function NoteUnderrun(): State {
      if underruns + 1 >= UNDERRUN_STREAK && target < limits.max
      then this.(target := target + 1, underruns := 0, stablePops := 0)
      else this.(underruns := underruns + 1, stablePops := 0)
    }

    /** The frame is None when silence is played. */
    function Pop(): (State, Option<Frame>) {
      if prebuffering && |buffer| < target then (if buffer == [] then NoteUnderrun() else this, None)
      else if buffer == [] then (NoteUnderrun().(prebuffering := true), None)
      else if stablePops + 1 >= STABLE_STREAK && target > limits.min then
        (this.(prebuffering := false, buffer := buffer[1..], target := target - 1, stablePops := 0), Some(buffer[0]))
      else
        (this.(prebuffering := false, buffer := buffer[1..], stablePops := stablePops + 1), Some(buffer[0]))
    }

    /** The learned target depth is kept. */
    function Clear(): State {
      this.(buffer := [], prebuffering := true, underruns := 0, stablePops := 0)
    }
  }

  function Start(limits: Limits): State {
    State(limits, limits.initial, [], true, 0, 0)
  }

  class JitterBuffer {
    const initial: nat
    const min: nat
    const max: nat
    var target: nat
    var buffer: seq<Frame>
    var prebuffering: bool
    var underruns: nat
    var stablePops: nat

    ghost function View(): State
      reads this
    {
      State(Limits(initial, min, max), target, buffer, prebuffering, underruns, stablePops)
    }

    constructor ()
      ensures View() == Start(CONFIGURED)
    {
      initial, min, max := CONFIGURED.initial, CONFIGURED.min, CONFIGURED.max;
      target := CONFIGURED.initial;
      buffer := [];
      prebuffering := true;
      underruns, stablePops := 0, 0;
    }

    method Push(frame: Frame)
      modifies this
      ensures View() == old(View()).Push(frame)
    {
      if |buffer| < max * 2 {
        buffer := buffer + [frame];
      }
    }

    method Pop() returns (frame: Frame)
      modifies this
      ensures View() == old(View()).Pop().0
      ensures frame == old(View()).Pop().1.GetOr(SILENCE)
    {
      if prebuffering {
        if |buffer| >= target {
          prebuffering := false;
        } else {
          if buffer == [] {
            NoteUnderrun();
          }
          return SILENCE;
        }
      }
      if buffer != [] {
        stablePops := stablePops + 1;
        if stablePops >= STABLE_STREAK && target > min {
          target := target - 1;
          stablePops := 0;
        }
        frame := buffer[0];
        buffer := buffer[1..];
        return;
      }
      NoteUnderrun();
      prebuffering := true;
      return SILENCE;
    }

    method NoteUnderrun()
      modifies this
      ensures View() == old(View()).NoteUnderrun()
    {
      underruns := underruns + 1;
      stablePops := 0;
      if underruns >= UNDERRUN_STREAK && target < max {
        target := target + 1;
        underruns := 0;
      }
    }

    method Clear()
      modifies this
      ensures View() == old(View()).Clear()
    {
      buffer := [];
      prebuffering := true;
      underruns := 0;
      stablePops := 0;
    }
  }

  // ---------------------------------------------------------------------------
  // Runs
  // ---------------------------------------------------------------------------

  datatype Operation = PushFrame(frame: Frame) | PopFrame | ClearAll

  /**
   * A run seen from outside: the frames taken in and given out since the last clear, and, over the whole run, how
   * often the target moved up and down, how many pops found nothing and how many gave a frame.
   */
  datatype Run = Run(
    state: State,
    accepted: seq<Frame>,
    delivered: seq<Frame>,
    raises: nat,
    lowerings: nat,
    emptyPops: nat,
    released: nat
  )

  function Apply(r: Run, op: Operation): Run {
    match op
    case PushFrame(f) =>
      var s := r.state.Push(f);
      r.(state := s, accepted := if s == r.state then r.accepted else r.accepted + [f])
    case ClearAll =>
      r.(state := r.state.Clear(), accepted := [], delivered := [])
    case PopFrame =>
      var (s, out) := r.state.Pop();
      Run(s, r.accepted,
          if out.Some? then r.delivered + [out.value] else r.delivered,
          if s.target > r.state.target then r.raises + 1 else r.raises,
          if s.target < r.state.target then r.lowerings + 1 else r.lowerings,
          if r.state.buffer == [] then r.emptyPops + 1 else r.emptyPops,
          if out.Some? then r.released + 1 else r.released)
  }

  function ApplyAll(r: Run, ops: seq<Operation>): Run
    decreases |ops|
  {
    if ops == [] then r else ApplyAll(Apply(r, ops[0]), ops[1..])
  }

  function RunOf(limits: Limits, ops: seq<Operation>): Run {
    ApplyAll(Run(Start(limits), [], [], 0, 0, 0, 0), ops)
  }

  ghost predicate Sound(r: Run) {
    && r.state.limits.Valid()
    && r.state.limits.min <= r.state.target <= r.state.limits.max
    && |r.state.buffer| <= 2 * r.state.limits.max
    && r.accepted == r.delivered + r.state.buffer
    && 3 * r.raises + r.state.underruns <= r.emptyPops
    && 250 * r.lowerings + r.state.stablePops <= r.released
    && (r.state.stablePops >= 250 ==> r.state.target == r.state.limits.min)
    && r.state.target == r.state.limits.initial + r.raises - r.lowerings
  }

  lemma ApplyKeepsSound(r: Run, op: Operation)
    requires Sound(r)
    ensures Sound(Apply(r, op)) && Apply(r, op).state.limits == r.state.limits
  {
    if op.PopFrame? && r.state.Pop().1.Some? {
      assert r.delivered + r.state.buffer == r.delivered + [r.state.buffer[0]] + r.state.buffer[1..];
    }
  }

  lemma {:induction false} ApplyAllKeepsSound(r: Run, ops: seq<Operation>)
    requires Sound(r)
    ensures Sound(ApplyAll(r, ops)) && ApplyAll(r, ops).state.limits == r.state.limits
    decreases |ops|
  {
    if ops != [] {
      ApplyKeepsSound(r, ops[0]);
      ApplyAllKeepsSound(Apply(r, ops[0]), ops[1..]);
    }
  }

  /** First in, first out, nothing lost: what was accepted is what came out followed by what is still held. */
  lemma FifoConservation(limits: Limits, ops: seq<Operation>)
    requires limits.Valid()
    ensures var r := RunOf(limits, ops); r.accepted == r.delivered + r.state.buffer
    ensures |RunOf(limits, ops).state.buffer| <= 2 * limits.max
  {
    ApplyAllKeepsSound(Run(Start(limits), [], [], 0, 0, 0, 0), ops);
  }

  /** A frame is refused exactly when 2 * max are held, so the deque never has to evict one itself. */
  lemma RefusedOnlyWhenFull(limits: Limits, ops: seq<Operation>, f: Frame)
    requires limits.Valid()
    ensures var r := RunOf(limits, ops);
            Apply(r, PushFrame(f)).accepted == r.accepted <==> |r.state.buffer| == 2 * limits.max
  {
    ApplyAllKeepsSound(Run(Start(limits), [], [], 0, 0, 0, 0), ops);
    var r := RunOf(limits, ops);
    if |r.state.buffer| < 2 * limits.max {
      assert |Apply(r, PushFrame(f)).accepted| == |r.accepted| + 1;
    }
  }

  /** The target moves by one for every three empty pops at most, and for every 250 released frames at most. */
  lemma AdaptationAccounting(limits: Limits, ops: seq<Operation>)
    requires limits.Valid()
    ensures var r := RunOf(limits, ops);
            && 1 <= limits.min <= r.state.target <= limits.max
            && 3 * r.raises + r.state.underruns <= r.emptyPops
            && 250 * r.lowerings + r.state.stablePops <= r.released
            && (r.state.stablePops >= 250 ==> r.state.target == limits.min)
            && r.state.target == limits.initial + r.raises - r.lowerings
  {
    ApplyAllKeepsSound(Run(Start(limits), [], [], 0, 0, 0, 0), ops);
  }

  // ---------------------------------------------------------------------------
  // Holding back, and progress
  // ---------------------------------------------------------------------------

  /** No operation of ops is a pop that finds the target depth reached. */
  ghost predicate NeverDeepEnough(s: State, ops: seq<Operation>)
    decreases |ops|
  {
    ops == [] || (
      && (ops[0].PopFrame? ==> |s.buffer| < s.target)
      && NeverDeepEnough(Apply(Run(s, [], [], 0, 0, 0, 0), ops[0]).state, ops[1..]))
  }

  lemma {:induction false} HeldUntilDeepEnough(r: Run, ops: seq<Operation>)
    requires r.state.prebuffering && NeverDeepEnough(r.state, ops)
    ensures ApplyAll(r, ops).released == r.released
    ensures ApplyAll(r, ops).state.prebuffering
    decreases |ops|
  {
    if ops != [] {
      assert Apply(r, ops[0]).state == Apply(Run(r.state, [], [], 0, 0, 0, 0), ops[0]).state;
      HeldUntilDeepEnough(Apply(r, ops[0]), ops[1..]);
    }
  }

  /**
   * Once a pop has found nothing, no frame comes out until some pop finds the current target depth; that pop then
   * gives the oldest frame.
   */
  lemma NothingAfterUnderrunUntilRefilled(limits: Limits, ops: seq<Operation>, more: seq<Operation>)
    requires limits.Valid()
    requires RunOf(limits, ops).state.buffer == []
    requires NeverDeepEnough(Apply(RunOf(limits, ops), PopFrame).state, more)
    ensures var held := ApplyAll(Apply(RunOf(limits, ops), PopFrame), more);
            && held.released == RunOf(limits, ops).released
            && (held.state.Pop().1.Some? <==> |held.state.buffer| >= held.state.target)
            && (held.state.Pop().1.Some? ==> held.state.Pop().1.value == held.state.buffer[0])
  {
    var r := RunOf(limits, ops);
    ApplyAllKeepsSound(Run(Start(limits), [], [], 0, 0, 0, 0), ops);
    ApplyKeepsSound(r, PopFrame);
    HeldUntilDeepEnough(Apply(r, PopFrame), more);
    ApplyAllKeepsSound(Apply(r, PopFrame), more);
  }

  /** A cleared buffer holds back in the same way, and keeps the depth it has learned. */
  lemma NothingAfterClearUntilFilled(limits: Limits, ops: seq<Operation>, more: seq<Operation>)
    requires limits.Valid()
    requires NeverDeepEnough(Apply(RunOf(limits, ops), ClearAll).state, more)
    ensures var cleared := Apply(RunOf(limits, ops), ClearAll);
            var held := ApplyAll(cleared, more);
            && cleared.state.target == RunOf(limits, ops).state.target && cleared.state.buffer == []
            && held.released == cleared.released
            && (held.state.Pop().1.Some? <==> |held.state.buffer| >= held.state.target)
  {
    var r := RunOf(limits, ops);
    ApplyAllKeepsSound(Run(Start(limits), [], [], 0, 0, 0, 0), ops);
    ApplyKeepsSound(r, ClearAll);
    HeldUntilDeepEnough(Apply(r, ClearAll), more);
    ApplyAllKeepsSound(Apply(r, ClearAll), more);
  }

  // ---------------------------------------------------------------------------
  // Adaptation
  // ---------------------------------------------------------------------------

  function Pops(n: nat): (ops: seq<Operation>)
    ensures |ops| == n
  {
    seq(n, _ => PopFrame)
  }

  lemma {:induction false} FewFramesLowerNothing(r: Run, ops: seq<Operation>)
    requires r.state.stablePops + (ApplyAll(r, ops).released - r.released) < 250
    ensures ApplyAll(r, ops).lowerings == r.lowerings && ApplyAll(r, ops).released >= r.released
    decreases |ops|
  {
    if ops != [] {
      ReleasedGrows(Apply(r, ops[0]), ops[1..]);
      FewFramesLowerNothing(Apply(r, ops[0]), ops[1..]);
    }
  }

  lemma {:induction false} ReleasedGrows(r: Run, ops: seq<Operation>)
    ensures ApplyAll(r, ops).released >= r.released && ApplyAll(r, ops).emptyPops >= r.emptyPops
    decreases |ops|
  {
    if ops != [] {
      ReleasedGrows(Apply(r, ops[0]), ops[1..]);
    }
  }

  /** The depth falls only after 250 frames without an empty pop among them. */
  lemma LoweringNeedsSteadiness(limits: Limits, ops: seq<Operation>, more: seq<Operation>)
    requires RunOf(limits, ops).state.buffer == []
    requires ApplyAll(Apply(RunOf(limits, ops), PopFrame), more).released < RunOf(limits, ops).released + 250
    ensures ApplyAll(Apply(RunOf(limits, ops), PopFrame), more).lowerings == RunOf(limits, ops).lowerings
  {
    FewFramesLowerNothing(Apply(RunOf(limits, ops), PopFrame), more);
  }

  lemma {:induction false} FewEmptyPopsRaiseNothing(r: Run, ops: seq<Operation>)
    requires r.state.underruns + (ApplyAll(r, ops).emptyPops - r.emptyPops) < 3
    ensures ApplyAll(r, ops).raises == r.raises
    decreases |ops|
  {
    if ops != [] {
      ReleasedGrows(Apply(r, ops[0]), ops[1..]);
      FewEmptyPopsRaiseNothing(Apply(r, ops[0]), ops[1..]);
    }
  }

  /** After a clear the depth rises only after three empty pops: those before it do not count. */
  lemma ClearForgetsUnderruns(limits: Limits, ops: seq<Operation>, more: seq<Operation>)
    requires ApplyAll(Apply(RunOf(limits, ops), ClearAll), more).emptyPops < RunOf(limits, ops).emptyPops + 3
    ensures ApplyAll(Apply(RunOf(limits, ops), ClearAll), more).raises == RunOf(limits, ops).raises
  {
    FewEmptyPopsRaiseNothing(Apply(RunOf(limits, ops), ClearAll), more);
  }

  function Min(a: int, b: int): int {
    if a < b then a else b
  }

  lemma {:induction false} DryPops(r: Run, n: nat)
    requires Sound(r) && r.state.buffer == []
    requires n >= 3 * (r.state.limits.max - r.state.target) - Min(r.state.underruns, 2)
    ensures ApplyAll(r, Pops(n)).state.target == r.state.limits.max
    decreases n
  {
    if n > 0 {
      ApplyKeepsSound(r, PopFrame);
      assert Pops(n)[0] == PopFrame && Pops(n)[1..] == Pops(n - 1);
      DryPops(Apply(r, PopFrame), n - 1);
    }
  }

  /** A buffer that stays dry learns the greatest depth: three empty pops are enough for each step up. */
  lemma DryBufferGrows(limits: Limits, ops: seq<Operation>, n: nat)
    requires limits.Valid() && RunOf(limits, ops).state.buffer == []
    requires n >= 3 * (limits.max - RunOf(limits, ops).state.target)
    ensures ApplyAll(RunOf(limits, ops), Pops(n)).state.target == limits.max
  {
    ApplyAllKeepsSound(Run(Start(limits), [], [], 0, 0, 0, 0), ops);
    DryPops(RunOf(limits, ops), n);
  }

  /** The state after a push and a pop for each frame. */
  function AfterAlternating(s: State, frames: seq<Frame>): State
    decreases |frames|
  {
    if frames == [] then s else AfterAlternating(s.Push(frames[0]).Pop().0, frames[1..])
  }

  lemma {:induction false} SteadyPops(s: State, frames: seq<Frame>)
    requires s.limits.Valid() && s.limits.min <= s.target <= s.limits.max && |s.buffer| <= 2 * s.limits.max
    requires !s.prebuffering
    requires |frames| >= 250 * (s.target - s.limits.min) - Min(s.stablePops, 249)
    ensures AfterAlternating(s, frames).target == s.limits.min
    decreases |frames|
  {
    if frames != [] {
      SteadyPops(s.Push(frames[0]).Pop().0, frames[1..]);
    }
  }

  /** A stream that never stalls gives the depth back: 250 frames are enough for each step down. */
  lemma SteadyStreamShrinks(limits: Limits, ops: seq<Operation>, frames: seq<Frame>)
    requires limits.Valid() && !RunOf(limits, ops).state.prebuffering
    requires |frames| >= 250 * (RunOf(limits, ops).state.target - limits.min)
    ensures AfterAlternating(RunOf(limits, ops).state, frames).target == limits.min
  {
    ApplyAllKeepsSound(Run(Start(limits), [], [], 0, 0, 0, 0), ops);
    SteadyPops(RunOf(limits, ops).state, frames);
  }

  /** What comes out when every pop is preceded by a push. */
  function Alternate(s: State, frames: seq<Frame>): (out: seq<Option<Frame>>)
    ensures |out| == |frames|
    decreases |frames|
  {
    if frames == [] then []
    else
      var (t, o) := s.Push(frames[0]).Pop();
      [o] + Alternate(t, frames[1..])
  }

  /** Pops still answered with silence. */
  function Shortfall(s: State): nat {
    if s.prebuffering && |s.buffer| + 1 < s.target then s.target - |s.buffer| - 1 else 0
  }

  lemma {:induction false} FramesAfterShortfall(s: State, frames: seq<Frame>, i: nat)
    requires s.limits.Valid() && s.limits.min <= s.target <= s.limits.max
    requires |s.buffer| <= 2 * s.limits.max
    requires Shortfall(s) <= i < |frames|
    ensures Alternate(s, frames)[i].Some?
    decreases |frames|
  {
    var (t, o) := s.Push(frames[0]).Pop();
    if i > 0 {
      FramesAfterShortfall(t, frames[1..], i - 1);
    }
  }

  /** From any reachable state a frame comes out within target pops, and every later pop gives one. */
  lemma {:induction false} Progress(limits: Limits, ops: seq<Operation>, frames: seq<Frame>, i: nat)
    requires limits.Valid()
    requires RunOf(limits, ops).state.target - 1 <= i < |frames|
    ensures Alternate(RunOf(limits, ops).state, frames)[i].Some?
    ensures RunOf(limits, ops).state.target <= limits.max
  {
    ApplyAllKeepsSound(Run(Start(limits), [], [], 0, 0, 0, 0), ops);
    FramesAfterShortfall(RunOf(limits, ops).state, frames, i);
  }
}
