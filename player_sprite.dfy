/** How the player is drawn: animation row, speed and mirroring chosen from
    the player's flags, and the blinking that hides the sprite on alternate
    ticks while the player is invulnerable. */
module PlayerSprite {
  import SpriteSheet

  /** The animation rows of one colour theme, top to bottom. */
  datatype PlayerAnimationState = Idle | Running | Shooting {
    function Index(): (i: int)
      ensures 0 <= i < 3
    {
      match this
      case Idle => 0
      case Running => 1
      case Shooting => 2
    }
  }

  const Rows: int := 6
  const Columns: int := 8
  const FramesPerAnimation: int := 8
  const SpriteScale: real := 1.5
  /** The player uses the yellow rows unless told otherwise. */
  const DefaultGreenTheme: bool := false

  /** Shooting wins over jumping, jumping and facing a direction both show
      the running animation, and only a player facing neither way idles. */
  function AnimationState(isShooting: bool, isJumping: bool, facingDirection: int): (r: PlayerAnimationState)
    ensures r == Shooting <==> isShooting
    ensures r == Idle <==> !isShooting && !isJumping && facingDirection == 0
  {
    if isShooting then Shooting
    else if isJumping then Running
    else if facingDirection != 0 then Running
    else Idle
  }

  /** Seconds per frame, by the same priority: 0.07 shooting, 0.1 jumping,
      0.08 facing a direction, 0.15 idle. */
  function AnimationSpeed(isShooting: bool, isJumping: bool, facingDirection: int): (r: real)
    ensures r > 0.0
    ensures r == match AnimationState(isShooting, isJumping, facingDirection)
                 case Shooting => 0.07
                 case Running => if isJumping then 0.1 else 0.08
                 case Idle => 0.15
  {
    if isShooting then 0.07
    else if isJumping then 0.1
    else if facingDirection != 0 then 0.08
    else 0.15
  }

  function FlipX(facingDirection: int): bool {
    facingDirection < 0
  }

  /** The player only ever faces -1 or 1, so it is never drawn idle. */
  lemma FacingPlayerNeverIdles(isShooting: bool, isJumping: bool, facingDirection: int)
    requires facingDirection == 1 || facingDirection == -1
    ensures AnimationState(isShooting, isJumping, facingDirection) != Idle
    ensures FlipX(facingDirection) <==> facingDirection == -1
  {
  }

  /** The sheet row: the green theme uses the lower three rows. */
  function SpriteRow(state: PlayerAnimationState, useGreenTheme: bool): (r: int)
    ensures 0 <= r < Rows
    ensures useGreenTheme <==> 3 <= r
    ensures r % 3 == state.Index()
  {
    if useGreenTheme then state.Index() + 3 else state.Index()
  }

  /** The props handed to the sprite sheet: the sheet's defaults with the
      speed, scale, row and flip this component chooses. */
  function SheetProps(isShooting: bool, isJumping: bool, facingDirection: int, useGreenTheme: bool): (p: SpriteSheet.SheetProps)
    ensures SpriteSheet.WellFormed(p)
    ensures 0 <= p.animationRow < p.rows
    ensures p.animationSpeed > 0.0 && (p.flipX <==> facingDirection < 0)
    ensures p.animationSpeed == AnimationSpeed(isShooting, isJumping, facingDirection) && p.scale == SpriteScale
    ensures p.animationRow == SpriteRow(AnimationState(isShooting, isJumping, facingDirection), useGreenTheme)
    // `playing` and the completion callback are left at their defaults: playing, none
    ensures p.playing && !p.hasOnAnimationComplete
    ensures p == SpriteSheet.DefaultProps(Rows, Columns, FramesPerAnimation).(
      animationSpeed := p.animationSpeed, scale := p.scale, animationRow := p.animationRow, flipX := p.flipX)
  {
    var state := AnimationState(isShooting, isJumping, facingDirection);
    SpriteSheet.DefaultProps(Rows, Columns, FramesPerAnimation).(
      animationSpeed := AnimationSpeed(isShooting, isJumping, facingDirection), scale := SpriteScale,
      animationRow := SpriteRow(state, useGreenTheme), flipX := FlipX(facingDirection))
  }

  /** Without a theme prop the sprite is drawn from the yellow rows. */
  lemma DefaultThemeRows(isShooting: bool, isJumping: bool, facingDirection: int)
    ensures var p := SheetProps(isShooting, isJumping, facingDirection, DefaultGreenTheme);
            p.animationRow < 3
  {
  }

  /** The blinking state: the current `isInvulnerable` prop, the `blinking`
      flag the interval toggles and the `visible` flag derived from it. */
  datatype BlinkState = BlinkState(isInvulnerable: bool, blinking: bool, visible: bool)

  /** Visible exactly when not blinking, and never blinking unless
      invulnerable. */
  predicate Settled(s: BlinkState) {
    s.visible == !s.blinking && (!s.isInvulnerable ==> !s.blinking)
  }

  /** The state after mounting (and running the effects) with the given prop. */
  function Mount(isInvulnerable: bool): (s: BlinkState)
    ensures Settled(s) && s.visible && s.isInvulnerable == isInvulnerable
  {
    BlinkState(isInvulnerable, false, true)
  }

  /** The prop changes to `isInvulnerable`. The effect re-runs only on a
      change. Entering invulnerability only starts the interval. Leaving it
      clears the interval and resets `blinking` (in the cleanup and again in
      the new effect), shows the sprite, and the visibility effect agrees. */
  function InvulnerabilityChanged(s: BlinkState, isInvulnerable: bool): (r: BlinkState)
    ensures r.isInvulnerable == isInvulnerable
    ensures isInvulnerable == s.isInvulnerable ==> r == s
    ensures isInvulnerable && !s.isInvulnerable ==> r.blinking == s.blinking && r.visible == s.visible
    ensures !isInvulnerable ==> (s.isInvulnerable || Settled(s)) ==> !r.blinking && r.visible
    ensures Settled(s) ==> Settled(r)
  {
    if isInvulnerable == s.isInvulnerable then s
    else if isInvulnerable then s.(isInvulnerable := true)
    else BlinkState(false, false, true)
  }

  /** One 150 ms interval firing. The interval exists only while
      invulnerable; otherwise nothing happens. */
  function IntervalTick(s: BlinkState): (r: BlinkState)
    ensures r.isInvulnerable == s.isInvulnerable
    ensures s.isInvulnerable ==> r.blinking == !s.blinking && r.visible == !r.blinking
    ensures !s.isInvulnerable ==> r == s
    ensures Settled(s) ==> Settled(r)
  {
    if s.isInvulnerable then
      var blinking := !s.blinking;
      BlinkState(s.isInvulnerable, blinking, !blinking)
    else s
  }

  /** Whether the sprite renders at all. */
  function Renders(s: BlinkState): bool {
    s.visible
  }

  function Ticks(s: BlinkState, n: nat): BlinkState {
    if n == 0 then s else IntervalTick(Ticks(s, n - 1))
  }

  /** From the moment invulnerability begins, the sprite is hidden after an
      odd number of ticks and shown after an even number. */
  lemma {:induction false} BlinkParity(s: BlinkState, n: nat)
    requires !s.isInvulnerable && Settled(s)
    ensures var t := Ticks(InvulnerabilityChanged(s, true), n);
            t.isInvulnerable && t.blinking == (n % 2 == 1) && Renders(t) == (n % 2 == 0) && Settled(t)
  {
    if n > 0 {
      BlinkParity(s, n - 1);
      assert (n - 1) % 2 == 1 <==> n % 2 == 0;
    }
  }

  /** The component instance's blinking state. */
  class PlayerSpriteView {
    var isInvulnerable: bool
    var blinking: bool
    var visible: bool

    function State(): BlinkState
      reads this
    {
      BlinkState(isInvulnerable, blinking, visible)
    }

    constructor (isInvulnerable: bool)
      ensures State() == Mount(isInvulnerable)
    {
      this.isInvulnerable := isInvulnerable;
      blinking := false;
      visible := true;
    }

    method SetInvulnerable(value: bool)
      modifies this
      ensures State() == InvulnerabilityChanged(old(State()), value)
    {
      if value == isInvulnerable {
        return;
      }
      if isInvulnerable {
        // cleanup of the running interval
        blinking := false;
      }
      isInvulnerable := value;
      if !value {
        blinking := false;
        visible := true;
      }
    }

    method Tick()
      modifies this
      ensures State() == IntervalTick(old(State()))
    {
      if isInvulnerable {
        blinking := !blinking;
        visible := !blinking;
      }
    }
  }
}
