/** The explosion shown where an enemy was hit: it grows from half to twice
    its scale over `duration` seconds, fades out over the last 30% of that
    time, and then reports completion once and stops rendering. */
module ExplosionEffect {
  import Geometry

  const DefaultScale: real := 1.0
  const DefaultDuration: real := 0.5
  /** The progress at which the fade-out begins. */
  const FadeStart: real := 0.7

  /** The fraction of the duration that has passed, capped at 1. */
  function Progress(elapsed: real, duration: real): (p: real)
    requires duration > 0.0
    ensures p <= 1.0
    ensures elapsed >= 0.0 ==> p >= 0.0
    ensures p == 1.0 <==> elapsed >= duration
    ensures elapsed < duration ==> p == elapsed / duration
  {
    var ratio := elapsed / duration;
    if ratio < 1.0 then ratio else 1.0
  }

  /** The mesh scale at a given progress. */
  function CurrentScale(scale: real, progress: real): (r: real)
    ensures scale >= 0.0 && 0.0 <= progress <= 1.0 ==> 0.5 * scale <= r <= 2.0 * scale
    ensures progress == 0.0 ==> r == 0.5 * scale
    ensures progress == 1.0 ==> r == 2.0 * scale
  {
    ScaleBounds(scale, progress);
    scale * (0.5 + progress * 1.5)
  }

  lemma ScaleBounds(scale: real, progress: real)
    ensures scale >= 0.0 && 0.0 <= progress <= 1.0 ==>
      0.5 * scale <= scale * (0.5 + progress * 1.5) <= 2.0 * scale
  {
    if scale >= 0.0 && 0.0 <= progress <= 1.0 {
      Geometry.ScaleMonotoneLeft(scale, 0.5, 0.5 + progress * 1.5);
      Geometry.ScaleMonotoneLeft(scale, 0.5 + progress * 1.5, 2.0);
    }
  }

  /** The explosion never shrinks while it plays: the scale grows with the
      progress. */
  lemma ScaleGrowsWithProgress(scale: real, p1: real, p2: real)
    requires scale >= 0.0 && p1 <= p2
    ensures CurrentScale(scale, p1) <= CurrentScale(scale, p2)
  {
    Geometry.ScaleMonotoneLeft(scale, 0.5 + p1 * 1.5, 0.5 + p2 * 1.5);
  }

  /** Fully opaque until 70% of the duration, then a linear fade that
      reaches 0 at the end. */
  function Opacity(progress: real): (r: real)
    ensures progress <= 1.0 ==> 0.0 <= r <= 1.0
    ensures progress < FadeStart ==> r == 1.0
    ensures progress == 1.0 ==> r == 0.0
  {
    if progress < FadeStart then 1.0 else 1.0 - ((progress - FadeStart) / 0.3)
  }

  /** The explosion never becomes more opaque as it plays, and the fade has
      no jump where it begins. */
  lemma OpacityNonIncreasing(p1: real, p2: real)
    requires p1 <= p2
    ensures Opacity(p2) <= Opacity(p1)
    ensures Opacity(FadeStart) == 1.0
  {
  }

  /** The start time in milliseconds, the `completed` flag, and what the
      last frame wrote into the mesh scale and the material opacity. */
  datatype ExplosionState = ExplosionState(startTime: int, completed: bool, meshScale: real, opacity: real)

  /** The effect right after mounting, with the start time recorded. */
  function Started(startTime: int): (s: ExplosionState)
    ensures !s.completed && s.startTime == startTime
  {
    ExplosionState(startTime, false, 1.0, 1.0)
  }

  /** Seconds since the start, from two millisecond clock readings. */
  function Elapsed(startTime: int, now: int): real {
    (now - startTime) as real / 1000.0
  }

  datatype FrameOutcome = FrameOutcome(state: ExplosionState, completeCalled: bool)

  /** One frame at clock reading `now` (milliseconds). `meshMounted` says
      whether the mesh ref is attached; `hasOnComplete` whether the
      `onComplete` callback was given. */
  function AnimateFrame(s: ExplosionState, scale: real, duration: real, now: int,
                        meshMounted: bool, hasOnComplete: bool): (r: FrameOutcome)
    requires duration > 0.0
    ensures s.completed || !meshMounted ==> r == FrameOutcome(s, false)
    ensures r.state.startTime == s.startTime
    ensures r.state.completed <==> s.completed || (meshMounted && Elapsed(s.startTime, now) >= duration)
    ensures r.completeCalled <==> !s.completed && r.state.completed && hasOnComplete
    ensures !s.completed && meshMounted ==>
      && r.state.meshScale == CurrentScale(scale, Progress(Elapsed(s.startTime, now), duration))
      && r.state.opacity == Opacity(Progress(Elapsed(s.startTime, now), duration))
      && 0.0 <= r.state.opacity <= 1.0
  {
    if s.completed || !meshMounted then FrameOutcome(s, false)
    else
      var progress := Progress(Elapsed(s.startTime, now), duration);
      var s1 := s.(meshScale := CurrentScale(scale, progress), opacity := Opacity(progress));
      if progress >= 1.0 && !s.completed then FrameOutcome(s1.(completed := true), hasOnComplete)
      else FrameOutcome(s1, false)
  }

  /** The component renders its mesh only while not completed. */
  predicate Renders(s: ExplosionState) {
    !s.completed
  }

  /** With the default scale and duration, a mounted frame completes a fresh
      effect exactly when half a second (500 ms) has passed since it started. */
  lemma DefaultEffectLastsHalfSecond(startTime: int, now: int, hasOnComplete: bool)
    ensures AnimateFrame(Started(startTime), DefaultScale, DefaultDuration, now, true, hasOnComplete).state.completed
            <==> now - startTime >= 500
  {
    var d := (now - startTime) as real;
    assert Elapsed(startTime, now) == d / 1000.0;
    assert d / 1000.0 >= 0.5 <==> d >= 500.0;
  }

  /** One frame as seen by the per-frame callback: clock reading and whether
      the mesh is attached. */
  datatype Tick = Tick(now: int, meshMounted: bool)

  datatype RunOutcome = RunOutcome(state: ExplosionState, completeCalls: nat)

  /** A sequence of frames, counting the calls of `onComplete`. */
  function Run(s: ExplosionState, scale: real, duration: real, hasOnComplete: bool, ticks: seq<Tick>): RunOutcome
    requires duration > 0.0
  {
    if ticks == [] then RunOutcome(s, 0)
    else
      var before := Run(s, scale, duration, hasOnComplete, ticks[..|ticks| - 1]);
      var t := ticks[|ticks| - 1];
      var o := AnimateFrame(before.state, scale, duration, t.now, t.meshMounted, hasOnComplete);
      RunOutcome(o.state, before.completeCalls + if o.completeCalled then 1 else 0)
  }

  /** However many frames are run, `onComplete` is called at most once, never
      for an effect that had already completed, and only after which the
      effect stays completed. */
  lemma {:induction false} CompletesAtMostOnce(s: ExplosionState, scale: real, duration: real,
                                               hasOnComplete: bool, ticks: seq<Tick>)
    requires duration > 0.0
    ensures var r := Run(s, scale, duration, hasOnComplete, ticks);
            && r.completeCalls <= 1
            && (s.completed ==> r.completeCalls == 0 && r.state == s)
            && (r.completeCalls == 1 ==> r.state.completed)
  {
    if ticks != [] {
      CompletesAtMostOnce(s, scale, duration, hasOnComplete, ticks[..|ticks| - 1]);
    }
  }

  /** A frame with the mesh attached and the duration elapsed completes the
      effect, and it stays completed for every later frame. */
  lemma {:induction false} CompletionIsPermanent(s: ExplosionState, scale: real, duration: real,
                                                 hasOnComplete: bool, ticks: seq<Tick>, i: nat)
    requires duration > 0.0 && i < |ticks|
    requires ticks[i].meshMounted && Elapsed(s.startTime, ticks[i].now) >= duration
    ensures Run(s, scale, duration, hasOnComplete, ticks).state.completed
  {
    if i < |ticks| - 1 {
      CompletionIsPermanent(s, scale, duration, hasOnComplete, ticks[..|ticks| - 1], i);
    } else {
      StartTimeKept(s, scale, duration, hasOnComplete, ticks[..|ticks| - 1]);
    }
  }

  /** Once a mounted frame has seen the full duration, the effect renders
      nothing after that frame or any later one. */
  lemma StopsRenderingAfterCompletion(s: ExplosionState, scale: real, duration: real,
                                      hasOnComplete: bool, ticks: seq<Tick>, i: nat)
    requires duration > 0.0 && i < |ticks|
    requires ticks[i].meshMounted && Elapsed(s.startTime, ticks[i].now) >= duration
    ensures forall j :: i < j <= |ticks| ==> !Renders(Run(s, scale, duration, hasOnComplete, ticks[..j]).state)
  {
    forall j | i < j <= |ticks|
      ensures !Renders(Run(s, scale, duration, hasOnComplete, ticks[..j]).state)
    {
      assert ticks[..j][i] == ticks[i];
      CompletionIsPermanent(s, scale, duration, hasOnComplete, ticks[..j], i);
    }
  }

  lemma {:induction false} StartTimeKept(s: ExplosionState, scale: real, duration: real,
                                         hasOnComplete: bool, ticks: seq<Tick>)
    requires duration > 0.0
    ensures Run(s, scale, duration, hasOnComplete, ticks).state.startTime == s.startTime
  {
    if ticks != [] {
      StartTimeKept(s, scale, duration, hasOnComplete, ticks[..|ticks| - 1]);
    }
  }

  /** The mounted component: start time, `completed` flag, mesh scale and
      material opacity. */
  class Explosion {
    var startTime: int
    var completed: bool
    var meshScale: real
    var opacity: real

    function State(): ExplosionState
      reads this
    {
      ExplosionState(startTime, completed, meshScale, opacity)
    }

    constructor (startTime: int)
      ensures State() == Started(startTime)
    {
      this.startTime := startTime;
      completed := false;
      meshScale := 1.0;
      opacity := 1.0;
    }

    method Frame(scale: real, duration: real, now: int, meshMounted: bool, hasOnComplete: bool)
      returns (completeCalled: bool)
      requires duration > 0.0
      modifies this
      ensures FrameOutcome(State(), completeCalled) == AnimateFrame(old(State()), scale, duration, now, meshMounted, hasOnComplete)
    {
      completeCalled := false;
      if completed {
        return;
      }
      var elapsedTime := (now - startTime) as real / 1000.0;
      if meshMounted {
        var ratio := elapsedTime / duration;
        var progress := if ratio < 1.0 then ratio else 1.0;
        meshScale := scale * (0.5 + progress * 1.5);
        opacity := if progress < 0.7 then 1.0 else 1.0 - ((progress - 0.7) / 0.3);
        if progress >= 1.0 && !completed {
          completed := true;
          if hasOnComplete {
            completeCalled := true;
          }
        }
      }
    }
  }
}
