/** A sprite sheet: a texture cut into `rows` x `columns` cells, animated by
    stepping a frame counter and moving the texture's UV window onto the
    current cell. */
module SpriteSheet {

  /** A pair of reals: a texture offset, a texture repeat or a mesh scale. */
  datatype Vec2 = Vec2(x: real, y: real)

  /** The component's props, defaults already applied. `hasOnAnimationComplete`
      says whether the optional `onAnimationComplete` callback was given. */
  datatype SheetProps = SheetProps(
    rows: int,
    columns: int,
    totalFrames: int,
    animationSpeed: real,
    scale: real,
    animationRow: int,
    playing: bool,
    flipX: bool,
    hasOnAnimationComplete: bool)

  /** The defaults of the optional props: speed 0.1, scale 1, row 0, playing,
      not flipped, no completion callback. */
  function DefaultProps(rows: int, columns: int, totalFrames: int): SheetProps {
    SheetProps(rows, columns, totalFrames, 0.1, 1.0, 0, true, false, false)
  }

  /** A sheet with at least one cell and at least one frame. */
  predicate WellFormed(p: SheetProps) {
    p.rows > 0 && p.columns > 0 && p.totalFrames > 0
  }

  /** The size of one cell in texture coordinates (`texture.repeat`). */
  function FrameSize(rows: int, columns: int): (r: Vec2)
    requires rows > 0 && columns > 0
    ensures 0.0 < r.x <= 1.0 && 0.0 < r.y <= 1.0
  {
    Vec2(1.0 / columns as real, 1.0 / rows as real)
  }

  /** The offset set when the texture has loaded: the top-left cell. */
  function InitialOffset(rows: int): Vec2
    requires rows > 0
  {
    Vec2(0.0, 1.0 - 1.0 / rows as real)
  }

  /** The texture offset that shows `frame` of animation row `row`; rows are
      counted from the top, texture coordinates from the bottom. */
  function FrameOffset(frame: int, row: int, rows: int, columns: int): (r: Vec2)
    requires rows > 0 && columns > 0 && frame >= 0
    ensures 0.0 <= r.x < 1.0
    ensures 0 <= row < rows ==> 0.0 <= r.y <= 1.0 - 1.0 / rows as real
  {
    var size := FrameSize(rows, columns);
    var col := frame % columns;
    var offsetX := col as real * size.x;
    var offsetY := 1.0 - (row + 1) as real * size.y;
    CellFraction(col as real, columns as real);
    CellFraction(row as real, rows as real);
    Vec2(offsetX, offsetY)
  }

  /** `k` cells of width `1 / n` reach from 0 up to, but not including, 1. */
  lemma CellFraction(k: real, n: real)
    requires n > 0.0
    ensures 0.0 <= k && k + 1.0 <= n ==>
      && 0.0 <= k * (1.0 / n) < 1.0
      && 1.0 / n <= (k + 1.0) * (1.0 / n) <= 1.0
  {
    if 0.0 <= k && k + 1.0 <= n {
      TimesReciprocal(k, n);
      TimesReciprocal(k + 1.0, n);
      QuotientBounds(k, n);
    }
  }

  lemma TimesReciprocal(a: real, n: real)
    requires n > 0.0
    ensures a * (1.0 / n) == a / n
  {
  }

  lemma QuotientBounds(k: real, n: real)
    requires 0.0 <= k && k + 1.0 <= n
    ensures 0.0 <= k / n < 1.0
    ensures 1.0 / n <= (k + 1.0) / n <= 1.0
  {
  }

  /** The frame after `current`, wrapping to 0 after the last one. */
  function NextFrame(current: int, totalFrames: int): (r: int)
    requires totalFrames > 0 && current >= 0
    ensures 0 <= r < totalFrames
    ensures current < totalFrames ==> (r == 0 <==> current == totalFrames - 1)
    ensures current < totalFrames - 1 ==> r == current + 1
  {
    (current + 1) % totalFrames
  }

  /** The initial offset is the offset of frame 0 in row 0. */
  lemma InitialOffsetIsFrameZero(rows: int, columns: int)
    requires rows > 0 && columns > 0
    ensures InitialOffset(rows) == FrameOffset(0, 0, rows, columns)
  {
  }

  /** The frame reached from `current` after `n` advances. */
  function AdvanceBy(current: int, totalFrames: int, n: nat): (r: int)
    requires totalFrames > 0 && current >= 0
    ensures 0 <= r
  {
    if n == 0 then current else NextFrame(AdvanceBy(current, totalFrames, n - 1), totalFrames)
  }

  /** Stepping the counter `n` times from a frame in range is addition modulo
      `totalFrames`: the frames cycle with period `totalFrames`. */
  lemma {:induction false} AdvanceByIsModular(current: int, totalFrames: int, n: nat)
    requires totalFrames > 0 && 0 <= current < totalFrames
    ensures AdvanceBy(current, totalFrames, n) == (current + n) % totalFrames
  {
    if n > 0 {
      AdvanceByIsModular(current, totalFrames, n - 1);
      var a := current + n - 1;
      ModSucc(a, totalFrames);
    }
  }

  lemma ModSucc(a: int, t: int)
    requires t > 0 && a >= 0
    ensures (a % t + 1) % t == (a + 1) % t
  {
    var q, m := a / t, a % t;
    assert a == q * t + m;
    if m + 1 < t {
      ModUnique(a + 1, t, q, m + 1);
    } else {
      assert a + 1 == (q + 1) * t;
      ModUnique(a + 1, t, q + 1, 0);
    }
  }

  lemma ModUnique(a: int, t: int, q: int, r: int)
    requires t > 0 && 0 <= r < t && a == q * t + r
    ensures a % t == r
  {
    var q', r' := a / t, a % t;
    assert a == q' * t + r';
    assert (q - q') * t == r' - r by {
      assert q * t - q' * t == (q - q') * t;
    }
    if q > q' {
      AtLeastOnce(q - q', t);
    } else if q < q' {
      AtLeastOnce(q' - q, t);
    }
  }

  lemma AtLeastOnce(m: int, t: int)
    requires m >= 1 && t > 0
    ensures m * t >= t
  {
    assert m * t == (m - 1) * t + t;
    assert (m - 1) * t >= 0;
  }

  /** What the component keeps between frames, plus what it has written into
      the texture and the mesh. Before the texture loads `offset` and
      `repeat` hold three.js's defaults. */
  datatype SheetState = SheetState(
    textureLoaded: bool,
    currentFrame: nat,
    lastUpdateTime: real,
    offset: Vec2,
    repeat: Vec2,
    meshScale: Vec2)

  function Initial(): (s: SheetState)
    ensures !s.textureLoaded && s.currentFrame == 0 && s.lastUpdateTime == 0.0
  {
    SheetState(false, 0, 0.0, Vec2(0.0, 0.0), Vec2(1.0, 1.0), Vec2(1.0, 1.0))
  }

  /** The texture-load callback: one cell is shown, the top-left one. */
  function TextureLoaded(s: SheetState, rows: int, columns: int): (r: SheetState)
    requires rows > 0 && columns > 0
    ensures r.textureLoaded
    ensures r.offset == FrameOffset(0, 0, rows, columns) && r.repeat == FrameSize(rows, columns)
    ensures r.currentFrame == s.currentFrame && r.lastUpdateTime == s.lastUpdateTime
    ensures r.meshScale == s.meshScale
  {
    InitialOffsetIsFrameZero(rows, columns);
    s.(textureLoaded := true, repeat := FrameSize(rows, columns), offset := InitialOffset(rows))
  }

  datatype FrameOutcome = FrameOutcome(state: SheetState, animationComplete: bool)

  /** The per-frame callback at clock reading `time` (seconds). */
  function AnimateFrame(s: SheetState, p: SheetProps, time: real): (r: FrameOutcome)
    requires WellFormed(p)
    ensures !s.textureLoaded || !p.playing ==> r == FrameOutcome(s, false)
    ensures r.state.textureLoaded == s.textureLoaded
    ensures (r.state.currentFrame != s.currentFrame || r.state.lastUpdateTime != s.lastUpdateTime
             || r.animationComplete)
            ==> s.textureLoaded && p.playing && time - s.lastUpdateTime > p.animationSpeed
    ensures s.textureLoaded && p.playing && time - s.lastUpdateTime > p.animationSpeed ==>
      && r.state.currentFrame == NextFrame(s.currentFrame, p.totalFrames)
      && r.state.currentFrame < p.totalFrames
      && r.state.lastUpdateTime == time
      && r.state.offset == FrameOffset(r.state.currentFrame, p.animationRow, p.rows, p.columns)
      && r.state.repeat == FrameSize(p.rows, p.columns)
      && (r.animationComplete <==> r.state.currentFrame == 0 && p.hasOnAnimationComplete)
    ensures s.textureLoaded && p.playing ==>
      r.state.meshScale == Vec2(if p.flipX then -p.scale else p.scale, p.scale)
    // a frame that does not advance only rewrites the mesh scale
    ensures s.textureLoaded && p.playing && !(time - s.lastUpdateTime > p.animationSpeed) ==>
      r == FrameOutcome(s.(meshScale := Vec2(if p.flipX then -p.scale else p.scale, p.scale)), false)
  {
    if !s.textureLoaded || !p.playing then FrameOutcome(s, false)
    else
      var advance := time - s.lastUpdateTime > p.animationSpeed;
      var s1 :=
        if advance then
          var newFrame := NextFrame(s.currentFrame, p.totalFrames);
          s.(currentFrame := newFrame,
             lastUpdateTime := time,
             offset := FrameOffset(newFrame, p.animationRow, p.rows, p.columns),
             repeat := FrameSize(p.rows, p.columns))
        else s;
      var complete := advance && s1.currentFrame == 0 && p.hasOnAnimationComplete;
      FrameOutcome(s1.(meshScale := Vec2(if p.flipX then -p.scale else p.scale, p.scale)), complete)
  }

  /** The texture window stays inside the sheet: once loaded, the offset
      always lies in [0, 1) x [0, 1 - 1/rows] for rows 0 <= row < rows. */
  predicate OffsetInSheet(s: SheetState, p: SheetProps)
    requires WellFormed(p)
  {
    0.0 <= s.offset.x < 1.0 && 0.0 <= s.offset.y <= 1.0 - 1.0 / p.rows as real
  }

  lemma AnimateFrameKeepsOffsetInSheet(s: SheetState, p: SheetProps, time: real)
    requires WellFormed(p) && 0 <= p.animationRow < p.rows
    requires OffsetInSheet(s, p)
    ensures OffsetInSheet(AnimateFrame(s, p, time).state, p)
  {
  }

  /** The callback fires on the `k`-th advance from frame 0 exactly when `k`
      is a positive multiple of `totalFrames`. */
  lemma CompletionPeriod(totalFrames: int, k: nat)
    requires totalFrames > 0 && k > 0
    ensures AdvanceBy(0, totalFrames, k) == 0 <==> k % totalFrames == 0
  {
    AdvanceByIsModular(0, totalFrames, k);
  }

  /** The component instance: its state and refs, the texture's offset and
      repeat, and the mesh scale. */
  class SpriteSheet {
    var textureLoaded: bool
    var currentFrame: nat
    var lastUpdateTime: real
    var offset: Vec2
    var repeat: Vec2
    var meshScale: Vec2

    function State(): SheetState
      reads this
    {
      SheetState(textureLoaded, currentFrame, lastUpdateTime, offset, repeat, meshScale)
    }

    constructor ()
      ensures State() == Initial()
    {
      textureLoaded, currentFrame, lastUpdateTime := false, 0, 0.0;
      offset, repeat, meshScale := Vec2(0.0, 0.0), Vec2(1.0, 1.0), Vec2(1.0, 1.0);
    }

    method OnTextureLoaded(rows: int, columns: int)
      requires rows > 0 && columns > 0
      modifies this
      ensures State() == TextureLoaded(old(State()), rows, columns)
    {
      var frameWidth := 1.0 / columns as real;
      var frameHeight := 1.0 / rows as real;
      repeat := Vec2(frameWidth, frameHeight);
      offset := Vec2(0.0, 1.0 - frameHeight);
      textureLoaded := true;
    }

    method Frame(p: SheetProps, time: real) returns (animationComplete: bool)
      requires WellFormed(p)
      modifies this
      ensures FrameOutcome(State(), animationComplete) == AnimateFrame(old(State()), p, time)
    {
      animationComplete := false;
      if !textureLoaded || !p.playing {
        return;
      }
      if time - lastUpdateTime > p.animationSpeed {
        var newFrame := (currentFrame + 1) % p.totalFrames;
        currentFrame := newFrame;
        lastUpdateTime := time;
        if newFrame == 0 && p.hasOnAnimationComplete {
          animationComplete := true;
        }
        var frameWidth := 1.0 / p.columns as real;
        var frameHeight := 1.0 / p.rows as real;
        var col := newFrame % p.columns;
        var row := p.animationRow;
        var offsetX := col as real * frameWidth;
        var offsetY := 1.0 - (row + 1) as real * frameHeight;
        offset := Vec2(offsetX, offsetY);
        repeat := Vec2(frameWidth, frameHeight);
      }
      meshScale := Vec2(if p.flipX then -p.scale else p.scale, p.scale);
    }
  }
}
