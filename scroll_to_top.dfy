/**
 * The scroll-to-top control: it first asks the browser for a native smooth
 * scroll, polls the offset at a fixed interval to see whether that scroll
 * progresses, and when it has stalled falls back to an animation that eases
 * the offset from its start value down to zero over 800 ms.
 *
 * Sampled offsets and animation-frame times are parameters: polling tick k
 * reads `samples[k - 1]`, and animation frame k is `frameElapsed[k]`
 * milliseconds after the animation began.
 */
module ScrollToTop {

  /** Polling stops without fallback once the counter exceeds this. */
  const PollLimit: nat := 20
  /** The stall check only fires once the counter exceeds this. */
  const StallTicks: nat := 3
  /** Length of the manual animation in milliseconds. */
  const AnimationDuration: real := 800.0

  datatype PollOutcome =
    | Polling   // the interval keeps running
    | Arrived   // the offset reached zero: native scroll worked
    | GaveUp    // the counter ran out before the offset reached zero
    | FallBack  // the offset is stuck at its start: run the manual animation

  /** One polling tick, with the counter already incremented. The check for
      arrival or exhaustion comes before the stall check. */
  function PollTick(checkCount: nat, position: int, start: int): (o: PollOutcome)
    ensures o == Arrived <==> position == 0
    ensures o == GaveUp <==> position != 0 && checkCount > PollLimit
    ensures o == FallBack <==> position != 0 && StallTicks < checkCount <= PollLimit && position == start
  {
    if position == 0 || checkCount > PollLimit then
      (if position == 0 then Arrived else GaveUp)
    else if checkCount > StallTicks && position == start then
      FallBack
    else
      Polling
  }

  /** How polling ended and after how many ticks. */
  datatype PollResult = PollResult(outcome: PollOutcome, ticks: nat)

  /** Polling over the remaining samples, `count` ticks having passed. */
  function PollFrom(start: int, samples: seq<int>, count: nat): (r: PollResult)
    ensures count <= r.ticks <= count + |samples|
    ensures r.outcome == Polling ==> r.ticks == count + |samples|
    decreases |samples|
  {
    if |samples| == 0 then PollResult(Polling, count)
    else
      var outcome := PollTick(count + 1, samples[0], start);
      if outcome != Polling then PollResult(outcome, count + 1)
      else PollFrom(start, samples[1..], count + 1)
  }

  /** Polling from the first tick. */
  function Poll(start: int, samples: seq<int>): PollResult
  {
    PollFrom(start, samples, 0)
  }

  lemma {:induction false} PollFromShape(start: int, samples: seq<int>, count: nat)
    ensures var r := PollFrom(start, samples, count);
      && (r.outcome != Polling ==>
            count < r.ticks && r.outcome == PollTick(r.ticks, samples[r.ticks - 1 - count], start))
      && (forall i :: 0 <= i < r.ticks - count - (if r.outcome == Polling then 0 else 1) ==>
            PollTick(count + i + 1, samples[i], start) == Polling)
    decreases |samples|
  {
    if |samples| > 0 && PollTick(count + 1, samples[0], start) == Polling {
      var rest := samples[1..];
      PollFromShape(start, rest, count + 1);
      var r := PollFrom(start, samples, count);
      forall i | 1 <= i < r.ticks - count - (if r.outcome == Polling then 0 else 1)
        ensures PollTick(count + i + 1, samples[i], start) == Polling
      {
        assert samples[i] == rest[i - 1];
      }
    }
  }

  /** Polling stops at the first tick whose step is not `Polling`, and that
      step decides the outcome. */
  lemma PollShape(start: int, samples: seq<int>)
    ensures var r := Poll(start, samples);
      && r.ticks <= |samples|
      && (r.outcome == Polling ==> r.ticks == |samples|)
      && (r.outcome != Polling ==> 1 <= r.ticks && r.outcome == PollTick(r.ticks, samples[r.ticks - 1], start))
      && (forall i :: 0 <= i < r.ticks - (if r.outcome == Polling then 0 else 1) ==>
            PollTick(i + 1, samples[i], start) == Polling)
  {
    PollFromShape(start, samples, 0);
  }

  /** Polling never runs beyond tick 21: given enough samples it always stops. */
  lemma PollStopsByLimit(start: int, samples: seq<int>)
    requires |samples| > PollLimit
    ensures Poll(start, samples).outcome != Polling
    ensures Poll(start, samples).ticks <= PollLimit + 1
  {
    PollShape(start, samples);
    assert PollTick(PollLimit + 1, samples[PollLimit], start) != Polling;
  }

  /** The fallback only happens after the fourth tick, before the limit, with
      the offset still at a non-zero start. */
  lemma FallBackMeansStalled(start: int, samples: seq<int>)
    requires Poll(start, samples).outcome == FallBack
    ensures var t := Poll(start, samples).ticks;
      StallTicks < t <= PollLimit && 1 <= t <= |samples| && samples[t - 1] == start && start != 0
  {
    PollShape(start, samples);
  }

  /** Arrival is reported only when the sampled offset is zero. */
  lemma ArrivedMeansTop(start: int, samples: seq<int>)
    requires Poll(start, samples).outcome == Arrived
    ensures var t := Poll(start, samples).ticks; 1 <= t <= |samples| && samples[t - 1] == 0
  {
    PollShape(start, samples);
  }

  /** A native scroll that never moves triggers the fallback on the fourth tick. */
  lemma StalledScrollFallsBack(start: int, samples: seq<int>)
    requires start != 0 && |samples| > StallTicks
    requires forall k :: 0 <= k <= StallTicks ==> samples[k] == start
    ensures Poll(start, samples) == PollResult(FallBack, StallTicks + 1)
  {
    var s1 := samples[1..];
    var s2 := s1[1..];
    var s3 := s2[1..];
    assert s1[0] == samples[1] && s2[0] == samples[2] && s3[0] == samples[3];
    assert PollFrom(start, s3, 3) == PollResult(FallBack, 4);
    assert PollFrom(start, s2, 2) == PollFrom(start, s3, 3);
    assert PollFrom(start, s1, 1) == PollFrom(start, s2, 2);
  }

  /** The polling interval as the source runs it: one sampled offset per tick,
      the counter incremented before the checks. */
  method RunPolling(start: int, samples: seq<int>) returns (outcome: PollOutcome, ticks: nat)
    ensures PollResult(outcome, ticks) == Poll(start, samples)
  {
    var checkCount: nat := 0;
    outcome := Polling;
    while checkCount < |samples| && outcome == Polling
      invariant checkCount <= |samples|
      invariant outcome == Polling ==> PollFrom(start, samples[checkCount..], checkCount) == Poll(start, samples)
      invariant outcome != Polling ==> PollResult(outcome, checkCount) == Poll(start, samples)
      decreases |samples| - checkCount
    {
      var currentPosition := samples[checkCount];
      assert samples[checkCount..][1..] == samples[checkCount + 1..];
      checkCount := checkCount + 1;
      if currentPosition == 0 || checkCount > PollLimit {
        outcome := if currentPosition == 0 then Arrived else GaveUp;
      } else if checkCount > StallTicks && currentPosition == start {
        outcome := FallBack;
      }
    }
    ticks := checkCount;
  }

  /** The two polynomial halves of the ease-in-out curve. */
  function EaseIn(t: real): real { 2.0 * t * t }
  function EaseOut(t: real): real { -1.0 + (4.0 - 2.0 * t) * t }

  function EaseInOutQuad(t: real): real
  {
    if t < 0.5 then EaseIn(t) else EaseOut(t)
  }

  /** The curve starts at 0, ends at 1, and both halves meet at (0.5, 0.5),
      so the switch between them leaves no jump. */
  lemma EaseEndpoints()
    ensures EaseInOutQuad(0.0) == 0.0 && EaseInOutQuad(1.0) == 1.0
    ensures EaseIn(0.5) == EaseOut(0.5) == EaseInOutQuad(0.5) == 0.5
  {
  }

  /** The curve is point-symmetric about (0.5, 0.5). */
  lemma EaseSymmetric(t: real)
    ensures EaseInOutQuad(1.0 - t) == 1.0 - EaseInOutQuad(t)
  {
  }

  lemma MulNonNegative(a: real, b: real)
    requires 0.0 <= a && 0.0 <= b
    ensures 0.0 <= a * b
  {
  }

  /** On [0, 1] the curve never decreases. */
  lemma EaseMonotone(s: real, t: real)
    requires 0.0 <= s <= t <= 1.0
    ensures EaseInOutQuad(s) <= EaseInOutQuad(t)
  {
    if t < 0.5 {
      MulNonNegative(t - s, t + s);
      assert EaseIn(t) - EaseIn(s) == 2.0 * ((t - s) * (t + s));
    } else if s >= 0.5 {
      MulNonNegative(t - s, 4.0 - 2.0 * (t + s));
      assert EaseOut(t) - EaseOut(s) == (t - s) * (4.0 - 2.0 * (t + s));
    } else {
      MulNonNegative(0.5 - s, 0.5 + s);
      assert EaseIn(s) == 0.5 - 2.0 * ((0.5 - s) * (0.5 + s));
      MulNonNegative(t - 0.5, 1.5 - t);
      assert EaseOut(t) == 0.5 + 2.0 * ((t - 0.5) * (1.5 - t));
    }
  }

  /** On [0, 1] the curve stays within [0, 1]. */
  lemma EaseRange(t: real)
    requires 0.0 <= t <= 1.0
    ensures 0.0 <= EaseInOutQuad(t) <= 1.0
  {
    EaseMonotone(0.0, t);
    EaseMonotone(t, 1.0);
  }

  /** The animation's time fraction: elapsed / 800, capped at 1. */
  function AnimationFraction(elapsed: real): (f: real)
    ensures f <= 1.0
    ensures f == 1.0 <==> elapsed >= AnimationDuration
    ensures 0.0 <= elapsed ==> 0.0 <= f
  {
    var f := elapsed / AnimationDuration;
    if f <= 1.0 then f else 1.0
  }

  /** The offset written at a frame `elapsed` ms into the animation. */
  function AnimationPosition(start: int, elapsed: real): real
  {
    start as real * (1.0 - EaseInOutQuad(AnimationFraction(elapsed)))
  }

  /** The first frame, at no elapsed time, keeps the start offset. */
  lemma AnimationStartsAtStart(start: int)
    ensures AnimationPosition(start, 0.0) == start as real
  {
  }

  /** From 800 ms on, the offset is exactly zero. */
  lemma AnimationReachesTop(start: int, elapsed: real)
    requires elapsed >= AnimationDuration
    ensures AnimationPosition(start, elapsed) == 0.0
  {
  }

  /** For a non-negative start the offset moves only towards the top and stays
      between the top and the start. */
  lemma AnimationMonotone(start: int, e1: real, e2: real)
    requires 0 <= start && 0.0 <= e1 <= e2
    ensures 0.0 <= AnimationPosition(start, e2) <= AnimationPosition(start, e1) <= start as real
  {
    var f1, f2 := AnimationFraction(e1), AnimationFraction(e2);
    assert f1 <= f2;
    EaseMonotone(f1, f2);
    EaseRange(f1);
    EaseRange(f2);
    var s := start as real;
    assert s * (1.0 - EaseInOutQuad(f2)) <= s * (1.0 - EaseInOutQuad(f1));
    assert 0.0 <= s * (1.0 - EaseInOutQuad(f2));
    assert s * (1.0 - EaseInOutQuad(f1)) <= s;
  }

  /** The manual animation as the source runs it: on each frame write the eased
      offset, and stop once the time fraction has reached 1. */
  method AnimateFrames(start: int, frameElapsed: seq<real>) returns (positions: seq<real>, finished: bool)
    ensures |positions| <= |frameElapsed|
    ensures forall k :: 0 <= k < |positions| ==> positions[k] == AnimationPosition(start, frameElapsed[k])
    ensures forall k :: 0 <= k < |positions| - 1 ==> frameElapsed[k] < AnimationDuration
    ensures finished <==> 0 < |positions| && frameElapsed[|positions| - 1] >= AnimationDuration
    ensures finished ==> positions[|positions| - 1] == 0.0
    ensures !finished ==> |positions| == |frameElapsed|
  {
    positions := [];
    finished := false;
    while |positions| < |frameElapsed| && !finished
      invariant |positions| <= |frameElapsed|
      invariant forall k :: 0 <= k < |positions| ==> positions[k] == AnimationPosition(start, frameElapsed[k])
      invariant forall k :: 0 <= k < |positions| - 1 ==> frameElapsed[k] < AnimationDuration
      invariant finished <==> 0 < |positions| && frameElapsed[|positions| - 1] >= AnimationDuration
      invariant finished ==> positions[|positions| - 1] == 0.0
      decreases |frameElapsed| - |positions|
    {
      var elapsed := frameElapsed[|positions|];
      var progress := AnimationFraction(elapsed);
      var currentPosition := start as real * (1.0 - EaseInOutQuad(progress));
      if !(progress < 1.0) {
        AnimationReachesTop(start, elapsed);
        finished := true;
      }
      positions := positions + [currentPosition];
    }
  }

  datatype TopOutcome =
    | AlreadyAtTop
    | Native(poll: PollOutcome)   // polling ended, or ran out of samples, without fallback
    | Animated(finished: bool)    // the stall check started the manual animation

  /** `scrollToTop`: nothing at all when the start offset is zero; otherwise
      native scroll with polling, and the manual animation when polling reports
      a stall. Returns the offsets the animation writes, if any. */
  method ScrollToTop(start: int, samples: seq<int>, frameElapsed: seq<real>)
    returns (outcome: TopOutcome, positions: seq<real>)
    ensures start == 0 <==> outcome == AlreadyAtTop
    ensures outcome.Animated? <==> start != 0 && Poll(start, samples).outcome == FallBack
    ensures outcome.Native? ==> outcome.poll == Poll(start, samples).outcome && outcome.poll != FallBack
    ensures !outcome.Animated? ==> positions == []
    ensures outcome.Animated? ==>
      && |positions| <= |frameElapsed|
      && (forall k :: 0 <= k < |positions| ==> positions[k] == AnimationPosition(start, frameElapsed[k]))
      && (forall k :: 0 <= k < |positions| - 1 ==> frameElapsed[k] < AnimationDuration)
      && (outcome.finished <==> 0 < |positions| && frameElapsed[|positions| - 1] >= AnimationDuration)
      && (outcome.finished ==> positions[|positions| - 1] == 0.0)
      && (!outcome.finished ==> |positions| == |frameElapsed|)
  {
    positions := [];
    if start == 0 {
      outcome := AlreadyAtTop;
      return;
    }
    var poll, ticks := RunPolling(start, samples);
    if poll == FallBack {
      var finished;
      positions, finished := AnimateFrames(start, frameElapsed);
      outcome := Animated(finished);
    } else {
      outcome := Native(poll);
    }
  }
}
