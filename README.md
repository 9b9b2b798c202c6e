# Contra-style platformer: per-frame game rules in Dafny

This project models the game rules of a small side-scrolling platformer
whose scene is drawn with react-three-fiber. For each part of the game it
models what one frame, key press or timer does:

- the player's movement, jump and shoot keys;
- the three enemy archetypes (walker, jumper, shooter): patrol, jump and
  shoot cooldowns, gravity, and the platform floors;
- the pairwise projectile/enemy proximity test, the explosions it spawns
  and the health an enemy loses;
- the sprite-sheet animation that picks the frame shown;
- the player's and the enemies' choice of animation row and speed;
- the blinking of the player while invulnerable;
- the growth, fade and completion of an explosion;
- the game session's start, score and overlay.

There is one module per source component:

- `Player`
- `Level`
- `SpriteSheet`
- `PlayerSprite`
- `EnemySprite`
- `ExplosionEffect`
- `Game`

Two small helper modules support them: `Geometry` (positions and squared
distance) and `Wrappers` (`Option`).

The components are imperative: React state, refs and mesh properties
change frame by frame. Each one therefore has a pure state record and step
functions, which carry the contracts and lemmas. It also has a class with
the same fields, whose methods perform the update and promise that the new
state is the step function applied to the old one:

- `SpriteSheet.SpriteSheet`
- `PlayerSprite.PlayerSpriteView`
- `ExplosionEffect.Explosion`
- `Player.Player`
- `Game.Session`

The level's frame callback is `Level.Frame`, a method with the source's
two nested loops. The outer loop goes over the player projectiles and the
inner one, `Level.RegisterHits`, goes over the enemies. Frame is proved
equal to four specification functions:

- `StepAll`: the enemy step;
- `Hits`: the ordered list of collisions;
- `ApplyHits`: the hits applied one after another;
- `ExplosionsFor`: the explosions the hits spawn.

Several facts about the source shape the model:

- React `setState` calls with an updater function apply to the latest
  state. So in a level frame, every `handleEnemyHit` applies to the
  *stepped* enemy list. The distance test, though, and the explosion
  positions both use the enemy list *before* the step, because the loop
  runs over the frame's captured `enemies`.
- `handleEnemyHit` lowers health only while the new value stays positive.
  At one health point it leaves the enemy as it is and schedules the
  defeat callback. So an enemy's health never drops below one
  (`Level.ApplyHitsOnlyLowersHealth`), and no enemy is ever removed in
  these files.
- A player's left key wins over the right key when both are held.
- The player's shoot key increments the score directly. It spawns no
  projectile, and it cannot fire again until the 200 ms reset timer has
  fired.
- Several projectiles that hit one enemy in the same frame each count as
  a hit. Nothing deduplicates them (`Level.OneHitPerCollidingProjectile`).
- Clock readings are inputs:
  - `Date.now()` is the parameter `now`, in milliseconds, read once per
    frame. The level's `currentTime` is `now / 1000` in seconds
    (`Level.Seconds`).
  - The sprite sheet's `clock.getElapsedTime()` is the real input `time`.
- Timers become explicit events:
  - the player's 200 ms shoot reset is `ShootTimer`;
  - the sprite's 150 ms blink interval is `IntervalTick`;
  - `setTimeout(onEnemyDefeat, 0)` appears as the list of defeated ids
    that a frame returns.

## Model

| member | source | states |
|---|---|---|
| Geometry.DistanceSquared | src/components/Level.tsx:130 | the squared distance used in place of `distanceTo` is never negative |
| Geometry.SquaredComparison | src/components/Level.tsx:130-133 | for a non-negative distance and a positive radius, `d < k` holds exactly when `d*d < k*k` |
| SpriteSheet.FrameSize | src/components/SpriteSheet.tsx:49-51 | a frame's width `1/columns` and height `1/rows` both lie in (0, 1] |
| SpriteSheet.FrameOffset | src/components/SpriteSheet.tsx:73-84 | the UV offset of a frame: x lies in [0, 1); for a row inside the sheet, y lies in [0, 1 - 1/rows] |
| SpriteSheet.NextFrame | src/components/SpriteSheet.tsx:64 | the next frame is within [0, totalFrames); it is 0 exactly after the last frame, and otherwise the successor |
| SpriteSheet.InitialOffsetIsFrameZero | src/components/SpriteSheet.tsx:49-52 | the offset set when the texture loads is the offset of frame 0 in row 0 |
| SpriteSheet.AdvanceBy | src/components/SpriteSheet.tsx:63-66 | advancing n frames is never negative |
| SpriteSheet.AdvanceByIsModular | src/components/SpriteSheet.tsx:64 | after n advances from frame c, the frame is `(c + n) % totalFrames` |
| SpriteSheet.CompletionPeriod | src/components/SpriteSheet.tsx:64-70 | starting from frame 0, the sheet is back at frame 0 after k advances exactly when k is a multiple of totalFrames |
| SpriteSheet.Initial | src/components/SpriteSheet.tsx:33-35 | before loading: no texture, frame 0, last update time 0 |
| SpriteSheet.TextureLoaded | src/components/SpriteSheet.tsx:38-55 | loading sets the texture, the frame-0 offset and the frame size; the frame counter, the update time and the mesh scale are kept |
| SpriteSheet.AnimateFrame | src/components/SpriteSheet.tsx:59-94 | with no texture or not playing, nothing changes. Otherwise the frame advances only when more than `animationSpeed` has elapsed; it then becomes `NextFrame`, the time is recorded, offset and repeat are set, and the callback fires exactly when the new frame is 0 and a callback is given. A frame that does not advance changes only the mesh scale. The mesh scale is `(±scale, scale)`, negative exactly when flipped |
| SpriteSheet.AnimateFrameKeepsOffsetInSheet | src/components/SpriteSheet.tsx:73-85 | for a row inside the sheet, the texture offset stays inside the sheet across frames |
| SpriteSheet.SpriteSheet.constructor | src/components/SpriteSheet.tsx:32-35 | the component starts in the initial state |
| SpriteSheet.SpriteSheet.OnTextureLoaded | src/components/SpriteSheet.tsx:40-55 | the loader callback leaves the component in state `TextureLoaded` |
| SpriteSheet.SpriteSheet.Frame | src/components/SpriteSheet.tsx:59-95 | the frame callback leaves the component in state `AnimateFrame` and returns whether the completion callback was invoked |
| EnemySprite.AnimationState | src/components/EnemySprite.tsx:52-61 | Shooting exactly when shooting. Idle exactly when an idle shooter neither shoots, jumps nor moves; walkers and jumpers are never idle |
| EnemySprite.AnimationSpeed | src/components/EnemySprite.tsx:44-49 | the speed is positive; it is 0.06 exactly when shooting, otherwise 0.09 for jumpers, 0.12 for shooters and 0.1 for walkers |
| EnemySprite.SpeedFollowsAnimation | src/components/EnemySprite.tsx:44-61 | once the state effect has run, the fast shooting speed goes with, and only with, the shooting row |
| EnemySprite.SpriteRow | src/components/EnemySprite.tsx:69 | the row is inside the 6-row sheet, in the green half exactly for the green theme, and its position within the half is the animation's index |
| EnemySprite.SheetProps | src/components/EnemySprite.tsx:72-82 | the props an enemy passes to the sheet are well formed: 6 rows, 8 columns, 8 frames. They carry the enemy's speed, scale 1.2 and the row of its settled animation state, and are flipped exactly when the direction is negative once the state effect has run. `playing` and the missing completion callback keep the sheet's defaults (src/components/SpriteSheet.tsx:28,30) |
| EnemySprite.DefaultThemeRows | src/components/EnemySprite.tsx:34 | without a theme prop an enemy is drawn from the green rows 3-5 |
| EnemySprite.MirroredIffTravellingLeft | src/components/EnemySprite.tsx:64 | once the texture is loaded and the state effect has run, the enemy's mesh is mirrored exactly when it travels left |
| PlayerSprite.AnimationState | src/components/PlayerSprite.tsx:47-57 | Shooting exactly when shooting; Idle exactly when not shooting, not jumping and facing 0 |
| PlayerSprite.AnimationSpeed | src/components/PlayerSprite.tsx:39-44 | the speed is positive and fixed by the animation state: 0.07 shooting, 0.1 jumping, 0.08 running, 0.15 idle |
| PlayerSprite.FacingPlayerNeverIdles | src/components/PlayerSprite.tsx:53-60 | a player facing ±1 never shows the idle row, and is flipped exactly when facing left |
| PlayerSprite.SpriteRow | src/components/PlayerSprite.tsx:90 | the row is inside the 6-row sheet, in the green half exactly for the green theme, and its position within the half is the animation's index |
| PlayerSprite.SheetProps | src/components/PlayerSprite.tsx:93-103 | the props the player passes to the sheet are well formed: 6 rows, 8 columns, 8 frames. They carry the player's speed, scale 1.5 and the row of its settled animation state, and are flipped exactly when facing left once the state effect has run. `playing` and the missing completion callback keep the sheet's defaults (src/components/SpriteSheet.tsx:28,30) |
| PlayerSprite.DefaultThemeRows | src/components/PlayerSprite.tsx:27 | without a theme prop the player is drawn from the yellow rows 0-2 |
| PlayerSprite.Mount | src/components/PlayerSprite.tsx:29-32 | the sprite mounts visible and not blinking, in a settled state |
| PlayerSprite.InvulnerabilityChanged | src/components/PlayerSprite.tsx:64-83 | an unchanged flag changes nothing; becoming invulnerable keeps the blink state; leaving it stops blinking and shows the sprite; settled states stay settled |
| PlayerSprite.IntervalTick | src/components/PlayerSprite.tsx:66-68 | while invulnerable, a tick toggles blinking and visibility follows it; otherwise nothing changes |
| PlayerSprite.BlinkParity | src/components/PlayerSprite.tsx:64-86 | after becoming invulnerable, n interval ticks leave the sprite blinking exactly when n is odd and rendered exactly when n is even |
| PlayerSprite.PlayerSpriteView.constructor | src/components/PlayerSprite.tsx:29-32 | the view starts in state `Mount` |
| PlayerSprite.PlayerSpriteView.SetInvulnerable | src/components/PlayerSprite.tsx:64-83 | the effect on the flag leaves the view in state `InvulnerabilityChanged` |
| PlayerSprite.PlayerSpriteView.Tick | src/components/PlayerSprite.tsx:66-68 | one interval firing leaves the view in state `IntervalTick` |
| ExplosionEffect.Progress | src/components/ExplosionEffect.tsx:70 | progress is at most 1 and non-negative for non-negative elapsed time; it is exactly 1 once the duration has elapsed, and elapsed/duration before |
| ExplosionEffect.CurrentScale | src/components/ExplosionEffect.tsx:71-72 | the scale lies between half and twice the base scale, from half at progress 0 to twice at progress 1 |
| ExplosionEffect.ScaleGrowsWithProgress | src/components/ExplosionEffect.tsx:71 | the explosion never shrinks as progress grows |
| ExplosionEffect.Opacity | src/components/ExplosionEffect.tsx:76 | the opacity stays in [0, 1]; it is fully opaque before progress 0.7 and transparent at 1 |
| ExplosionEffect.OpacityNonIncreasing | src/components/ExplosionEffect.tsx:76 | the opacity never increases with progress, and it is still 1 at progress 0.7 |
| ExplosionEffect.Started | src/components/ExplosionEffect.tsx:58-60 | the effect starts not completed, at the clock reading taken on mount |
| ExplosionEffect.AnimateFrame | src/components/ExplosionEffect.tsx:63-87 | a completed or unmounted effect is untouched. It completes exactly when the mesh is mounted and the duration has elapsed, and calls `onComplete` exactly once, at that transition, if given. Scale and opacity follow the progress |
| ExplosionEffect.CompletesAtMostOnce | src/components/ExplosionEffect.tsx:80-85 | over any sequence of frames, `onComplete` is called at most once, never for an effect already completed, and only if the effect ends completed |
| ExplosionEffect.CompletionIsPermanent | src/components/ExplosionEffect.tsx:64-85 | once a frame sees the full duration with the mesh mounted, the effect stays completed |
| ExplosionEffect.StopsRenderingAfterCompletion | src/components/ExplosionEffect.tsx:64-89 | once a mounted frame has seen the full duration, the effect renders nothing after that frame or after any later one |
| ExplosionEffect.DefaultEffectLastsHalfSecond | src/components/ExplosionEffect.tsx:14-15 | with the default scale 1 and duration 0.5, a mounted frame completes a fresh effect exactly when 500 ms have passed since it started |
| ExplosionEffect.StartTimeKept | src/components/ExplosionEffect.tsx:58-66 | no frame changes the start time |
| ExplosionEffect.Explosion.constructor | src/components/ExplosionEffect.tsx:21-22 | a new effect is in state `Started` |
| ExplosionEffect.Explosion.Frame | src/components/ExplosionEffect.tsx:63-87 | the frame callback leaves the effect in state `AnimateFrame` and returns whether `onComplete` was called |
| Game.Initial | src/components/Game.tsx:9-10 | a session starts not started, with score 0 |
| Game.StartedSession | src/components/Game.tsx:13-16 | starting the game sets the started flag and resets the score |
| Game.ScoreIncremented | src/components/Game.tsx:49 | the score callback adds one and keeps the started flag |
| Game.ShownOverlay | src/components/Game.tsx:20-34 | the start screen shows exactly while the orbit controls are enabled; the score board shows the current score, and only while the scene is mounted |
| Game.StartedIsPermanent | src/components/Game.tsx:13-16 | after any commands, the game is started exactly when it was started before or a start was among the commands |
| Game.ScoreCountsIncrements | src/components/Game.tsx:13-16 | the score equals the increments since the last start, added to the old score when no start occurred |
| Game.Session.constructor | src/components/Game.tsx:9-10 | a new session is in state `Initial` |
| Game.Session.StartGame | src/components/Game.tsx:13-16 | the button handler leaves the session in state `StartedSession` |
| Game.Session.IncrementScore | src/components/Game.tsx:49 | the callback leaves the session in state `ScoreIncremented` |
| Player.Initial | src/components/Player.tsx:15-19 | the player starts at (0, 1, 0) at rest, on the ground, not shooting, facing right, and consistent |
| Player.FrameStep | src/components/Player.tsx:57-106 | left wins over right. The horizontal move and facing follow the keys, and x integrates the new velocity. Below or at standing height the player is snapped to the ground with zero vertical speed and stops jumping; above it, gravity lowers the vertical speed and the old speed moves the player. The player never ends below standing height, and consistency is preserved |
| Player.JumpKey | src/components/Player.tsx:29-37 | a press while grounded starts a jump with vertical speed 5 and keeps the position and the horizontal and depth velocity; otherwise nothing changes; consistency is preserved |
| Player.ShootKey | src/components/Player.tsx:39-47 | a press while not shooting starts the shooting pulse and scores once; otherwise nothing changes |
| Player.ShootTimerFired | src/components/Player.tsx:45 | the reset timer clears the shooting flag and changes nothing else |
| Player.RunStaysConsistent | src/components/Player.tsx:29-106 | any sequence of frames, key presses and timer firings keeps the player consistent (grounded means y = 1 and no vertical speed) and keeps z |
| Player.ScoreNeedsPulseReset | src/components/Player.tsx:39-47 | each point scored needs a reset timer to have fired since the previous one: the points scored are at most the timer firings plus one |
| Player.Player.constructor | src/components/Player.tsx:15-19 | a new player is in state `Initial` and valid |
| Player.Player.Step | src/components/Player.tsx:57-106 | with a mounted mesh, the frame callback leaves the player in state `FrameStep`; without one, it changes nothing |
| Player.Player.PressJump | src/components/Player.tsx:29-37 | the jump handler leaves the player in state `JumpKey` |
| Player.Player.PressShoot | src/components/Player.tsx:39-47 | the shoot handler leaves the player in the state from `ShootKey` and increments the session score exactly when it scores |
| Player.Player.ShootReset | src/components/Player.tsx:45 | the reset timer leaves the player in state `ShootTimerFired` |
| Level.StepEnemy | src/components/Level.tsx:70-122 | the enemy step. It keeps id, type, cooldowns and health, moves x by `direction * 2 * delta` and keeps z. It reverses exactly beyond the patrol edge ±7. It records the jump and shot times exactly when due. Its height is the jump impulse `5·delta` when due, then gravity `9.8·delta` above 0.5, then the clamp to its floor; so it ends on or above its floor, and a floored enemy stays there. It fires one projectile exactly when the shot is due, copying the pre-step position and direction |
| Level.StepAll | src/components/Level.tsx:70-124 | the map keeps the number of enemies and yields at most one shot per enemy |
| Level.StepAllPointwise | src/components/Level.tsx:70-122 | enemy i after the map is enemy i stepped; a projectile is among the shots exactly when it is the one created by a shooter whose cooldown ran out |
| Level.StepAllSingleton | src/components/Level.tsx:108-113 | one enemy steps to its stepped self and fires exactly one projectile, `createProjectile` of it, when its shot is due, and none otherwise |
| Level.StepAllSplits | src/components/Level.tsx:70-124 | the map over `a + b` yields the enemies of `a` then those of `b`, and the shots of `a` then those of `b`: with the singleton case, one shot per due shooter in enemy order, even when two shots are equal values |
| Level.ShotCountIsDueCount | src/components/Level.tsx:108-161 | the number of shots handed to `setEnemyProjectiles` equals the number of enemies whose shot is due |
| Level.StepAllKeepsRoster | src/components/Level.tsx:70-124 | the step keeps every enemy's identity fields and puts each one on or above its floor |
| Level.ShotsCopyPreStepEnemy | src/components/Level.tsx:148-162 | every shot is an enemy projectile stamped with the frame clock, and sits at the position and direction of a shooter before its step |
| Level.HitsOfMembership | src/components/Level.tsx:128-142 | one projectile produces a hit for exactly the enemies within the hit radius |
| Level.HitsMembership | src/components/Level.tsx:127-144 | a hit is registered exactly for each (projectile, enemy) pair within the hit radius |
| Level.HitsOfNamingOne | src/components/Level.tsx:128-142 | with distinct ids, one projectile hits an enemy once if it is within the radius and not at all otherwise |
| Level.OneHitPerCollidingProjectile | src/components/Level.tsx:127-144 | with distinct ids, every enemy of the roster gets one hit per colliding projectile, each at its position: there is no deduplication |
| Level.CollidesIffWithinRadius | src/components/Level.tsx:130-133 | the squared-distance test agrees with `distance < 0.8` for the true distance |
| Level.HandleEnemyHit | src/components/Level.tsx:165-186 | the hit keeps the number of enemies |
| Level.HandleEnemyHitEffect | src/components/Level.tsx:165-186 | other ids are untouched. The enemy with the id loses a point while it has more than one, and is otherwise left unchanged and reported. The defeat list holds only that id, and it is non-empty exactly when such an enemy was on its last point |
| Level.DefeatSignalledOnce | src/components/Level.tsx:171-174 | with distinct ids, one hit schedules at most one defeat callback, and exactly one when the enemy with that id is on its last health point |
| Level.ApplyHitsOnlyLowersHealth | src/components/Level.tsx:165-186 | a sequence of hits changes nothing but health. Health never rises and never falls below one from one or more, and an enemy no hit names is left as it was |
| Level.ApplyHitsHealth | src/components/Level.tsx:165-186 | after any sequence of hits, an enemy that started at health h and is named by k of them has health h - k if that is at least one, and otherwise 1 (or h, if h was already below one). Every hit counts; none is deduplicated |
| Level.HandleEnemyHitDefeats | src/components/Level.tsx:167-174 | with distinct ids, one hit signals an enemy's defeat once when it names that enemy on its last point, and not otherwise |
| Level.ApplyHitsKeepsIds | src/components/Level.tsx:165-186 | hits keep every enemy's id in place, so distinct ids stay distinct |
| Level.ApplyHitsDefeats | src/components/Level.tsx:165-186 | with distinct ids, an enemy at health h named by k hits is signalled defeated k - (h - 1) times when k >= h (k times when h <= 1), and otherwise never: every hit after it reaches its last point signals it again |
| Level.ApplyHitsCompose | src/components/Level.tsx:127-144 | applying two batches of hits in turn is applying their concatenation, defeats in order |
| Level.ExplosionsFor | src/components/Level.tsx:135-138 | one explosion per hit, in order, each at the hit enemy's pre-step position and stamped with the frame clock |
| Level.ExplosionsForCompose | src/components/Level.tsx:135-138 | the explosions of two batches of hits are the explosions of each batch, in order |
| Level.RegisterHits | src/components/Level.tsx:128-143 | the inner loop over enemies for one projectile: it appends exactly that projectile's explosions and applies exactly its hits, in enemy order |
| Level.Frame | src/components/Level.tsx:63-145 | the frame callback. It returns the shots `StepAll` fires, and the stepped enemies after all hits from `Hits` on the pre-step enemies. It also returns the defeats those hits signal, and the old explosions followed by one per hit |
| Level.FrameKeepsRoster | src/components/Level.tsx:63-186 | after a whole frame the roster is intact. Ids, types and cooldowns are kept, and every enemy is on or above its floor. Health never rises and stays at least one; an enemy no hit names keeps its health. Each enemy's health is `HealthAfter` of its health and the number of hits naming its id |
| Level.FrameHitOutcome | src/components/Level.tsx:127-186 | with distinct ids, an enemy hit by k player projectiles within range of its pre-step position ends the frame at `HealthAfter(h, k)` and is signalled defeated `DefeatsAfter(h, k)` times; for example a shooter at health 2 hit by 3 projectiles ends at health 1 and is signalled defeated twice |
| Level.FrameKeepsIdsUnique | src/components/Level.tsx:63-186 | distinct ids stay distinct across a frame |
| Level.RemoveExplosions | src/components/Level.tsx:189-191 | after removal, an explosion remains exactly when it was there and has a different id |
| Level.RemoveExplosionsDistributes | src/components/Level.tsx:189-191 | removal keeps order: removing from a concatenation removes from each part |
| Level.RemoveExplosionsIdempotent | src/components/Level.tsx:189-191 | removal changes nothing exactly when no explosion has the id, so removing twice is removing once |

## Left out

- Scene composition, lights, camera, `Stats`, platforms, meshes and materials are not modelled. Nothing renders; the model only says which values would be drawn.
- Texture loading and disposal, and the explosion's texture slice, are left out. Loading is the event `OnTextureLoaded`.
- `BulletSprite.tsx`, `Physics.tsx`, `App` and the keyboard-controls provider are not part of this model.
- `console.log` in `shoot` has no state effect and is left out.
- Timers and intervals are explicit events. All wall-clock readings within one frame are one `now` parameter; real browsers may read different milliseconds within one frame.
- Level props are not wired. `Game` mounts `<Level />` without props. The level frame therefore takes the enemies, the explosions and the player projectiles as inputs, and returns the new enemies, shots and defeated ids instead of calling `setEnemies`, `setEnemyProjectiles` and `onEnemyDefeat`.
- React batching order and stale closures are assumed, not modelled. Every updater-style `setState` is applied to the latest value, and a frame reads the state captured at its start.
- Numbers are exact reals and integers, not IEEE doubles. Rounding, `NaN` and infinities are not modelled, and the square root in `distanceTo` is replaced by an equivalent squared comparison (`Level.CollidesIffWithinRadius`).
- SpriteSheet.AnimateFrame: requires positive `rows`, `columns` and `totalFrames`. With zero, JavaScript would compute `Infinity`/`NaN` offsets, and that is not modelled.
- ExplosionEffect.Progress: requires a positive `duration`. With a zero duration JavaScript computes `Math.min(Infinity, 1) = 1` for positive elapsed time, so the effect completes on its first mounted frame. Zero elapsed time gives `NaN`, and negative elapsed time gives `-Infinity`. None of this is modelled; every caller uses the default 0.5.
- EnemySprite.AnimationState: the component's `type: string` is narrowed to the three archetypes. Any other string would get the walker speed 0.1 and would be idle whenever not shooting, not jumping and not moving; that case is not modelled.
- ExplosionEffect.Started: the effect's `startTime` is 0 until its mount effect runs. A frame before that effect is not modelled; the model starts from the reading taken on mount.
- EnemySprite.SheetProps: gives the row and the flip as they are once the state effect of src/components/EnemySprite.tsx:52-65 has run. The source keeps them in state, so for one commit after a change it passes the previous row and flip together with the new speed, which is read from the props (for example the shooting speed 0.06 with the RUNNING row 4). EnemySprite.SpeedFollowsAnimation and EnemySprite.MirroredIffTravellingLeft hold for that settled state only.
- PlayerSprite.SheetProps: gives the row and the flip once the state effect of src/components/PlayerSprite.tsx:47-61 has run. For one commit after a change the source passes the previous row and flip with the new speed.
- PlayerSprite.IntervalTick: a blink that hides the sprite unmounts its `SpriteSheet` child (src/components/PlayerSprite.tsx:86), so each reappearance starts the sheet again from `SpriteSheet.Initial` and reloads its texture. The model keeps the two components apart and does not compose them.
- Player.Player.Step: the player mesh's rotation and its copy of `position` are not modelled. Because `setPosition` is asynchronous, the source copies the position from before the frame.

Behaviours of the code worth knowing:

- Left wins over right when both keys are held.
- The shoot key spawns no projectile and scores directly.
- A hit never brings health to zero, and defeated enemies are not removed.
- An enemy on its last point is signalled defeated again on every later hit: a shooter at health 2 hit by 3 projectiles in one frame ends at health 1 and calls `onEnemyDefeat` twice (`Level.FrameHitOutcome`).
- No score is awarded for a defeat.
- Hits are tested against the enemies as they were before this frame's step.
