/** How an enemy is drawn: which animation row of the soldier sheet, how
    fast it plays, and whether it is mirrored. Everything here is a function
    of the component's props. */
module EnemySprite {
  import SpriteSheet

  /** The three enemy archetypes. */
  datatype EnemyType = Walker | Jumper | Shooter

  /** The animation rows of one colour theme, top to bottom. */
  datatype EnemyAnimationState = Idle | Running | Shooting {
    function Index(): (i: int)
      ensures 0 <= i < 3
    {
      match this
      case Idle => 0
      case Running => 1
      case Shooting => 2
    }
  }

  const Rows: int := 6
  const Columns: int := 8
  const FramesPerAnimation: int := 8
  const SpriteScale: real := 1.2
  /** Enemies use the green rows unless told otherwise. */
  const DefaultGreenTheme: bool := true

  /** Shooting wins; a jumping enemy or a jumper runs; a moving enemy or a
      walker runs; only a motionless, non-jumping shooter idles. */
  function AnimationState(isShooting: bool, isJumping: bool, direction: real, kind: EnemyType): (r: EnemyAnimationState)
    ensures r == Shooting <==> isShooting
    ensures r == Idle <==> !isShooting && !isJumping && direction == 0.0 && kind.Shooter?
    ensures !kind.Shooter? ==> r != Idle
  {
    if isShooting then Shooting
    else if isJumping || kind == Jumper then Running
    else if direction != 0.0 || kind == Walker then Running
    else Idle
  }

  /** Seconds per frame, chosen by the same priority as the animation. */
  function AnimationSpeed(isShooting: bool, kind: EnemyType): (r: real)
    ensures r > 0.0
    ensures r == 0.06 <==> isShooting
    ensures !isShooting ==> r == (match kind case Jumper => 0.09 case Shooter => 0.12 case Walker => 0.1)
  {
    if isShooting then 0.06
    else if kind == Jumper then 0.09
    else if kind == Shooter then 0.12
    else 0.1
  }

  /** The shooting animation is exactly the one played at the fastest speed. */
  lemma SpeedFollowsAnimation(isShooting: bool, isJumping: bool, direction: real, kind: EnemyType)
    ensures AnimationState(isShooting, isJumping, direction, kind) == Shooting
            <==> AnimationSpeed(isShooting, kind) == 0.06
  {
  }

  function FlipX(direction: real): bool {
    direction < 0.0
  }

  /** The sheet row: the green theme uses the lower three rows. */
  function SpriteRow(state: EnemyAnimationState, useGreenTheme: bool): (r: int)
    ensures 0 <= r < Rows
    ensures useGreenTheme <==> 3 <= r
    ensures r % 3 == state.Index()
  {
    if useGreenTheme then state.Index() + 3 else state.Index()
  }

  /** The props handed to the sprite sheet: the sheet's defaults with the
      speed, scale, row and flip this component chooses. */
  function SheetProps(isShooting: bool, isJumping: bool, direction: real, kind: EnemyType, useGreenTheme: bool): (p: SpriteSheet.SheetProps)
    ensures SpriteSheet.WellFormed(p)
    ensures 0 <= p.animationRow < p.rows
    ensures p.animationSpeed > 0.0 && (p.flipX <==> direction < 0.0)
    ensures p.animationSpeed == AnimationSpeed(isShooting, kind) && p.scale == SpriteScale
    ensures p.animationRow == SpriteRow(AnimationState(isShooting, isJumping, direction, kind), useGreenTheme)
    // `playing` and the completion callback are left at their defaults: playing, none
    ensures p.playing && !p.hasOnAnimationComplete
    ensures p == SpriteSheet.DefaultProps(Rows, Columns, FramesPerAnimation).(
      animationSpeed := p.animationSpeed, scale := p.scale, animationRow := p.animationRow, flipX := p.flipX)
  {
    var state := AnimationState(isShooting, isJumping, direction, kind);
    SpriteSheet.DefaultProps(Rows, Columns, FramesPerAnimation).(
      animationSpeed := AnimationSpeed(isShooting, kind), scale := SpriteScale,
      animationRow := SpriteRow(state, useGreenTheme), flipX := FlipX(direction))
  }

  /** Without a theme prop the sprite is drawn from the green rows. */
  lemma DefaultThemeRows(isShooting: bool, isJumping: bool, direction: real, kind: EnemyType)
    ensures var p := SheetProps(isShooting, isJumping, direction, kind, DefaultGreenTheme);
            3 <= p.animationRow
  {
  }

  /** An enemy is drawn mirrored exactly when it travels left: the mesh's
      horizontal scale is negative iff the direction is. */
  lemma MirroredIffTravellingLeft(isShooting: bool, isJumping: bool, direction: real, kind: EnemyType,
                                  useGreenTheme: bool, s: SpriteSheet.SheetState, time: real)
    requires s.textureLoaded
    ensures var p := SheetProps(isShooting, isJumping, direction, kind, useGreenTheme);
            SpriteSheet.AnimateFrame(s, p, time).state.meshScale.x < 0.0 <==> direction < 0.0
  {
  }
}
