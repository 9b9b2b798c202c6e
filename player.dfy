/** The player's physics and key handlers: left/right movement, gravity,
    Euler integration with a snap to the ground, an edge-gated jump, and an
    edge-gated shot that only scores. */
module Player {
  import opened Geometry
  import Game

  const MoveSpeed: real := 5.0
  const Gravity: real := 9.8
  const JumpVelocity: real := 5.0
  const GroundY: real := 0.0
  /** The height of the player's centre when standing on the ground. */
  const StandingY: real := GroundY + 1.0

  /** The component's five pieces of state. */
  datatype PlayerState = PlayerState(
    position: Vec3,
    velocity: Vec3,
    isJumping: bool,
    facingDirection: int,
    isShooting: bool)

  /** What every handler keeps: never below the ground, facing one of the two
      ways, and a player that is not jumping is standing still on the
      ground (so a jump can only start from there). */
  predicate Consistent(s: PlayerState) {
    && s.position.y >= StandingY
    && (s.facingDirection == 1 || s.facingDirection == -1)
    && (!s.isJumping ==> s.position.y == StandingY && s.velocity.y == 0.0)
  }

  function Initial(): (s: PlayerState)
    ensures Consistent(s)
    ensures s.position == Vec3(0.0, 1.0, 0.0) && s.velocity == Vec3(0.0, 0.0, 0.0)
    ensures !s.isJumping && !s.isShooting && s.facingDirection == 1
  {
    PlayerState(Vec3(0.0, 1.0, 0.0), Vec3(0.0, 0.0, 0.0), false, 1, false)
  }

  /** One frame of `delta` seconds with the left/right keys as given. */
  function FrameStep(s: PlayerState, left: bool, right: bool, delta: real): (r: PlayerState)
    // left wins when both keys are held; with neither the facing is kept
    ensures left ==> r.velocity.x == -MoveSpeed && r.facingDirection == -1
    ensures !left && right ==> r.velocity.x == MoveSpeed && r.facingDirection == 1
    ensures !left && !right ==> r.velocity.x == 0.0 && r.facingDirection == s.facingDirection
    // the position moves by the velocity held before gravity acts
    ensures r.position.x == s.position.x + r.velocity.x * delta
    ensures r.position.z == s.position.z && r.velocity.z == 0.0
    ensures r.isShooting == s.isShooting
    // ground snap, or free flight under gravity
    ensures s.position.y + s.velocity.y * delta <= StandingY ==>
      r.position.y == StandingY && r.velocity.y == 0.0 && !r.isJumping
    ensures s.position.y + s.velocity.y * delta > StandingY ==>
      && r.position.y == s.position.y + s.velocity.y * delta
      && r.velocity.y == s.velocity.y - Gravity * delta
      && r.isJumping == s.isJumping
    // the ground invariant, for every delta
    ensures r.position.y >= StandingY
    ensures Consistent(s) ==> Consistent(r)
  {
    var xVelocity := if left then -MoveSpeed else if right then MoveSpeed else 0.0;
    var facing := if left then -1 else if right then 1 else s.facingDirection;
    var newYVelocity := s.velocity.y - Gravity * delta;
    var newX := s.position.x + xVelocity * delta;
    var newY := s.position.y + s.velocity.y * delta;
    if newY <= GroundY + 1.0 then
      PlayerState(Vec3(newX, GroundY + 1.0, s.position.z), Vec3(xVelocity, 0.0, 0.0), false, facing, s.isShooting)
    else
      PlayerState(Vec3(newX, newY, s.position.z), Vec3(xVelocity, newYVelocity, 0.0), s.isJumping, facing, s.isShooting)
  }

  /** The jump key's subscription: a press while not jumping launches the
      player upwards; a press mid-jump and a release do nothing. */
  function JumpKey(s: PlayerState, pressed: bool): (r: PlayerState)
    ensures pressed && !s.isJumping ==>
      r.isJumping && r.velocity.y == JumpVelocity && r.position == s.position
    ensures r.velocity.x == s.velocity.x && r.velocity.z == s.velocity.z
    ensures !pressed || s.isJumping ==> r == s
    ensures r.isShooting == s.isShooting && r.facingDirection == s.facingDirection
    ensures Consistent(s) ==> Consistent(r)
  {
    if pressed && !s.isJumping then s.(isJumping := true, velocity := s.velocity.(y := JumpVelocity))
    else s
  }

  datatype ShootOutcome = ShootOutcome(state: PlayerState, scored: bool)

  /** The shoot key's subscription: a press while not shooting starts the
      shooting pulse and calls `shoot`, which only increments the score. */
  function ShootKey(s: PlayerState, pressed: bool): (r: ShootOutcome)
    ensures r.scored <==> pressed && !s.isShooting
    ensures r.scored ==> r.state == s.(isShooting := true)
    ensures !r.scored ==> r.state == s
    ensures Consistent(s) ==> Consistent(r.state)
  {
    if pressed && !s.isShooting then ShootOutcome(s.(isShooting := true), true)
    else ShootOutcome(s, false)
  }

  /** The 200 ms timer started by a shot ends the shooting pulse. */
  function ShootTimerFired(s: PlayerState): (r: PlayerState)
    ensures !r.isShooting && r == s.(isShooting := false)
    ensures Consistent(s) ==> Consistent(r)
  {
    s.(isShooting := false)
  }

  /** Anything that can happen to the player between renders. */
  datatype Event =
    | Frame(left: bool, right: bool, delta: real)
    | Jump(pressed: bool)
    | Shoot(pressed: bool)
    | ShootTimer

  datatype RunOutcome = RunOutcome(state: PlayerState, scored: nat)

  /** A sequence of events, counting the calls of `incrementScore`. */
  function Run(s: PlayerState, events: seq<Event>): RunOutcome {
    if events == [] then RunOutcome(s, 0)
    else
      var before := Run(s, events[..|events| - 1]);
      match events[|events| - 1]
      case Frame(left, right, delta) => RunOutcome(FrameStep(before.state, left, right, delta), before.scored)
      case Jump(pressed) => RunOutcome(JumpKey(before.state, pressed), before.scored)
      case Shoot(pressed) =>
        var o := ShootKey(before.state, pressed);
        RunOutcome(o.state, before.scored + if o.scored then 1 else 0)
      case ShootTimer => RunOutcome(ShootTimerFired(before.state), before.scored)
  }

  /** The number of shoot-pulse timer firings among the events. */
  function TimerFirings(events: seq<Event>): nat {
    if events == [] then 0
    else TimerFirings(events[..|events| - 1]) + if events[|events| - 1].ShootTimer? then 1 else 0
  }

  /** The ground invariant over any run, whatever the deltas and inputs:
      the player is never below standing height, the depth never changes,
      and a player that is not jumping stands still on the ground. */
  lemma {:induction false} RunStaysConsistent(s: PlayerState, events: seq<Event>)
    requires Consistent(s)
    ensures Consistent(Run(s, events).state)
    ensures Run(s, events).state.position.z == s.position.z
  {
    if events != [] {
      RunStaysConsistent(s, events[..|events| - 1]);
    }
  }

  function Pending(s: PlayerState): nat {
    if s.isShooting then 0 else 1
  }

  /** Holding or hammering the shoot key scores at most once per shooting
      pulse: every point beyond the first needs a timer firing in between. */
  lemma {:induction false} ScoreNeedsPulseReset(s: PlayerState, events: seq<Event>)
    ensures var r := Run(s, events);
            r.scored + Pending(r.state) <= TimerFirings(events) + Pending(s)
    ensures Run(s, events).scored <= TimerFirings(events) + 1
  {
    if events != [] {
      ScoreNeedsPulseReset(s, events[..|events| - 1]);
    }
  }

  /** The mounted component. */
  class Player {
    var position: Vec3
    var velocity: Vec3
    var isJumping: bool
    var facingDirection: int
    var isShooting: bool

    function State(): PlayerState
      reads this
    {
      PlayerState(position, velocity, isJumping, facingDirection, isShooting)
    }

    predicate Valid()
      reads this
    {
      Consistent(State())
    }

    constructor ()
      ensures State() == Initial() && Valid()
    {
      position := Vec3(0.0, 1.0, 0.0);
      velocity := Vec3(0.0, 0.0, 0.0);
      isJumping := false;
      facingDirection := 1;
      isShooting := false;
    }

    /** The frame callback; `meshMounted` says whether the mesh ref is set. */
    method Step(left: bool, right: bool, delta: real, meshMounted: bool)
      requires Valid()
      modifies this
      ensures Valid()
      ensures State() == if meshMounted then FrameStep(old(State()), left, right, delta) else old(State())
    {
      if !meshMounted {
        return;
      }
      var xVelocity := 0.0;
      if left {
        xVelocity := -MoveSpeed;
        facingDirection := -1;
      } else if right {
        xVelocity := MoveSpeed;
        facingDirection := 1;
      }
      var newYVelocity := velocity.y - Gravity * delta;
      var oldVelocityY := velocity.y;
      velocity := Vec3(xVelocity, newYVelocity, 0.0);
      var newX := position.x + xVelocity * delta;
      var newY := position.y + oldVelocityY * delta;
      if newY <= GroundY + 1.0 {
        position := Vec3(newX, GroundY + 1.0, position.z);
        velocity := velocity.(y := 0.0);
        isJumping := false;
      } else {
        position := Vec3(newX, newY, position.z);
      }
    }

    method PressJump(pressed: bool)
      requires Valid()
      modifies this
      ensures Valid()
      ensures State() == JumpKey(old(State()), pressed)
    {
      if pressed && !isJumping {
        isJumping := true;
        velocity := velocity.(y := JumpVelocity);
      }
    }

    /** The shoot handler; `shoot` calls the session's `incrementScore`. */
    method PressShoot(pressed: bool, session: Game.Session)
      requires Valid()
      modifies this, session
      ensures Valid()
      ensures var o := ShootKey(old(State()), pressed);
              && State() == o.state
              && session.State() == if o.scored then Game.ScoreIncremented(old(session.State())) else old(session.State())
    {
      if pressed && !isShooting {
        isShooting := true;
        session.IncrementScore();
      }
    }

    method ShootReset()
      requires Valid()
      modifies this
      ensures Valid()
      ensures State() == ShootTimerFired(old(State()))
    {
      isShooting := false;
    }
  }
}
