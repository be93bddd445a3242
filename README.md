# Captain Forever: a verified model of the game simulation step

This project models the core of *Captain Forever*, a small pygame arcade game.
The player's ship flies in a wrapping arena. Enemy ships turn toward the
player, close in or back off, and fire on a cooldown. Bullets fly straight
and are dropped once they leave the screen. Bullets destroy enemies and
wear down the player. The game ends as lost or won.

The model is written in Dafny, in five files:

- `geometry.dfy`: vectors, Python's floor-modulo on reals, and
  `wrap_position`. It also states the contract of `get_random_position`.
  All of this comes from `captain_forever/utils.py`.
- `models.dfy`: the entities of `captain_forever/models.py` as values, with
  one transition function per Python method:
  - `GameObject.move`, `collides_with`, `StaticObject`;
  - `Ship.rotate`, `accelerate`, `deccelerate`, `shoot`, `reduce_health`;
  - `NPCShip.move`, `NPCShip.shoot`;
  - `Bullet.move`.
- `simulation.dfy`: the frame of `CaptainForever._process_game_logic` as one
  function per phase, composed into `Tick`, plus the world the constructor
  builds. The invariant `Consistent` and the game's properties are proved
  here.
- `game.dfy`: the `CaptainForever` class itself. Its fields are the game's
  lists, the player slot, the spawn counter and the message. Each method
  runs the source's loops over those lists. Each is proved to leave the
  object exactly in the state that the matching `Simulation` function
  describes.
- `sequences.dfy`: small facts about removing an element from a list while
  walking a copy of it.

Things the source takes from its surroundings are passed in as values:

- **Randomness.** `get_random_position` is a finite sequence of positions.
  The game object holds this sequence and draws from it in order. Every
  position is a whole-number point inside the screen (`Geometry.IsSample`).
- **Trigonometry.** The player's turn is a `Turn` value holding the cosine
  and sine of MANEUVERABILITY (3 degrees). For each enemy, each frame gets an
  `Aim`: the signed heading error that pygame's `angle_to` returns, and the
  distance to the player. Its square must equal the squared distance.
- **Sprites.** Every body's bounding radius is a number. The four radii
  (player ship, enemy ship, bullet, fire) are fixed for a game in the
  `Arena`.

Coordinates are exact reals, and every distance test is done on squared
distances. `Models.CollidesIffDistance` shows that the squared test agrees
with the source's `distance < r1 + r2`.

In several places the code behaves differently from what one might expect;
the model follows the code:

- An enemy that is turning keeps its velocity, so it drifts while it turns.
- Pruning removes a bullet only when it is strictly beyond an edge. A
  bullet with x equal to the width is kept.
- A player bullet is not used up when it destroys an enemy. It destroys
  every enemy it touches, and it goes on to hit enemies in later frames.
- The win test's `self.player_ship` is always truthy. So a frame that ends
  with no enemies is marked won, even when the player was destroyed earlier
  in that frame.
- `_spawn_enemy` keeps drawing. Every sample at least 400 units from the
  player becomes an enemy, and the loop stops at the first sample that is
  nearer. That sample is thrown away. There is no one-enemy spawn.
- Health is not clamped. The player's health never goes below one,
  because the player becomes a fire at zero.

## Model

| member | source | states |
|---|---|---|
| Geometry.FloorMod | captain_forever/utils.py:52 | Python's `%` with a positive modulus always lies in [0, m) |
| Geometry.FloorModPeriodic | captain_forever/utils.py:52 | adding whole multiples of the modulus leaves the remainder unchanged |
| Geometry.FloorModInRange | captain_forever/utils.py:52 | values already in [0, m) are their own remainder |
| Geometry.Wrap | captain_forever/utils.py:42-52 | a wrapped position always lies in [0, width) x [0, height) |
| Geometry.WrapPeriodic | captain_forever/utils.py:42-52 | shifting by whole screen widths and heights does not change the wrapped position |
| Geometry.WrapFixesArena | captain_forever/utils.py:42-52 | a position is left alone exactly when it is inside the arena; wrapping twice is wrapping once |
| Geometry.WrapExamples | captain_forever/test_utils.py:60-86 | the four 800 x 600 cases: (-50,-50)->(750,550), (850,300)->(50,300), (400,650)->(400,50), (-50,300)->(750,300) |
| Geometry.SampleIsWrapped | captain_forever/utils.py:55-69 | a drawn random position is inside the arena, so wrapping fixes it and pruning bounds hold |
| Models.Collides | captain_forever/models.py:118-129 | no ensures: the centre distance is strictly below the sum of the radii, tested on squares. Its contract is in `CollidesIffDistance`, `CollidesSymmetric` and `CollisionBoundary` |
| Models.StaticObject | captain_forever/models.py:145-155 | no ensures: a body at the given position with zero velocity (a fire) |
| Models.NewShip | captain_forever/models.py:182-200 | no ensures: a ship at rest, facing up, with 3 hit points. `InitialWorldShape` states it for the player |
| Models.NewNpc | captain_forever/models.py:297-324 | no ensures: an enemy ship at rest, facing up, with 2 hit points and an empty delay |
| Models.MoveBullet | captain_forever/models.py:403-407 | no ensures: position plus velocity, with no wrap. Its contract is in `BulletMoveUnwrapped` |
| Models.RotateVec | captain_forever/models.py:217-227 | no ensures: pygame's rotation of the heading by the supplied turn, with the sign from `clockwise`. Its contract is in `RotateIsRigid` |
| Models.Rotate | captain_forever/models.py:217-227 | no ensures: only the heading turns; position and velocity stay. `NpcMoveTurning` states it for enemies |
| Models.Accelerate | captain_forever/models.py:229-239 | no ensures: velocity plus factor times heading times 0.2. Its contract is in `ThrustCancels` and `ThrustFromRest` |
| Models.Decelerate | captain_forever/models.py:241-251 | no ensures: velocity minus factor times heading times 0.2. Its contract is in `ThrustCancels` and `ThrustFromRest` |
| Models.Shoot | captain_forever/models.py:253-260 | no ensures: a bullet at the ship with velocity heading times 9 plus the ship's velocity. Its contract is in `ShotLeavesAlongHeading` |
| Models.ReduceHealth | captain_forever/models.py:275-279 | no ensures: one hit point less, with no floor. `DamageEffect` states the count of hits |
| Models.NpcShoot | captain_forever/models.py:367-378 | no ensures: the delay grows by 9; past 1000 it resets and one bullet is fired. Its contract is in `FireCycle` and `NpcMoveAimed` |
| Models.NpcMove | captain_forever/models.py:335-365 | no ensures: turn when more than 3 degrees off, otherwise stop, try to fire and steer by distance band; then step and wrap. Its contract is in `NpcMoveTurning` and `NpcMoveAimed` |
| Models.CollidesIffDistance | captain_forever/models.py:118-129 | for the true centre distance d, the squared test holds exactly when d < r1 + r2 |
| Models.CollidesSymmetric | captain_forever/models.py:118-129 | a collides with b exactly when b collides with a |
| Models.CollisionBoundary | captain_forever/models.py:118-129 | objects on the same spot collide; objects exactly r1 + r2 apart do not |
| Models.MoveBody | captain_forever/models.py:105-116 | a moved object lands inside the arena and keeps its velocity and radius |
| Models.BulletMoveUnwrapped | captain_forever/models.py:403-407 | a bullet moves like a wrapping object exactly when its step stays inside the arena |
| Models.RotateIsRigid | captain_forever/models.py:217-227 | a turn keeps the heading's length, and the opposite turn undoes it |
| Models.ThrustCancels | captain_forever/models.py:229-251 | accelerate and deccelerate by the same factor cancel in either order and change only velocity |
| Models.ThrustFromRest | captain_forever/models.py:229-251 | from rest with a unit heading, either thrust gives speed ACCELERATION times the factor |
| Models.ShotLeavesAlongHeading | captain_forever/models.py:253-260 | a bullet starts at the ship and, relative to it, moves along the heading at BULLET_SPEED |
| Models.FireCycle | captain_forever/models.py:367-378 | from an empty delay, after n attempts the delay is 9 (n mod 112), at most 999, and exactly every 112th attempt fires |
| Models.NpcMoveTurning | captain_forever/models.py:335-365 | an enemy more than 3 degrees off turns toward the player, keeps its velocity and delay, does not fire, and steps and wraps |
| Models.NpcMoveAimed | captain_forever/models.py:335-378 | an aimed enemy keeps its heading and fires exactly when the delay passes 1000. It moves at speed 2 toward a player beyond 300, at speed 2 away from one within 150, and holds still in between |
| Simulation.InitialWorld | captain_forever/game.py:30-62 | no ensures: the world the constructor builds from the stream. Its contract is in `InitialWorldShape` |
| Simulation.MovePhase | captain_forever/game.py:204-218 | no ensures: the movement loop over every object. Its contract is in `MovePhaseEffect` and `MovePhaseConsistent` |
| Simulation.ContactPhase | captain_forever/game.py:219-227 | no ensures: any enemy touching the player turns the player into a fire and loses the game. Its contract is in `ContactPhaseConsistent` |
| Simulation.SpawnRun | captain_forever/game.py:287-301 | accepts no more positions than the stream holds. Its full contract is in `SpawnRunShape` |
| Simulation.SpawnEnemy | captain_forever/game.py:287-301 | no ensures: the run's accepted positions become enemies at the end of the list, and the stream becomes what is left. Its contract is in `SpawnPhaseEffect` |
| Simulation.SpawnPhase | captain_forever/game.py:228-233 | no ensures: the spawn pacing. Its contract is in `SpawnPhaseEffect` and `SpawnPhaseConsistent` |
| Simulation.KeepInside | captain_forever/game.py:236-243 | no ensures: the bullets not past any edge, in order. Its contract is in `KeepInsideExact` and `KeepInsideConcat` |
| Simulation.PrunePhase | captain_forever/game.py:235-252 | no ensures: `KeepInside` on both bullet lists, nothing else changed. Its contract is in `SettleBulletsInside` |
| Simulation.HitResolve | captain_forever/game.py:254-261 | no ensures: for each player bullet in turn, the enemies still alive that it touches are removed. Its contract is in `HitResolvePartition` and `HitResolveSurvivors` |
| Simulation.HitPhase | captain_forever/game.py:254-261 | no ensures: survivors stay, and a fire is appended for each removed enemy. Its contract is in `HitPhaseConsistent` |
| Simulation.Damage | captain_forever/game.py:263-272 | no ensures: the enemy-bullet pass. Its contract is in `DamageEffect`, `DamageRemovesHitsOnly`, `DamageKeepsMisses`, `DamageKeeps`, `DamageAliveBody` and `DamageWrecked` |
| Simulation.DamagePhase | captain_forever/game.py:263-272 | no ensures: `Damage` applied to the world, with the flag and message set to lost when it destroys the player. Its contract is in `DamagePhaseConsistent` |
| Simulation.WinPhase | captain_forever/game.py:274-276 | no ensures: with no enemy left the flag becomes won, whatever it was. Its contract is in `SettleConsistent` |
| Simulation.Active | captain_forever/game.py:204-233 | no ensures: movement, contact and spawn pacing in order. Its contract is in `ActiveConsistent` |
| Simulation.Settle | captain_forever/game.py:235-276 | no ensures: pruning, hits, enemy fire and the win check in order. Its contract is in `SettleConsistent`, `SettleBulletsInside` and `SettleShrinksBullets` |
| Simulation.Tick | captain_forever/game.py:200-276 | no ensures: `Active` only while no message is shown, then always `Settle`. Its contract is in `TickConsistent`, `TickAfterEnd` and `TickBulletsInside` |
| Simulation.EndMessage | captain_forever/game.py:278-285 | the message is "You ", then the flag, then the fixed exit instructions |
| Simulation.EndMessageInjective | captain_forever/game.py:278-285 | the message is never empty, and different flags give different messages |
| Simulation.DrawFar | captain_forever/game.py:52-58 | the accepted position is strictly farther than 400 from the start, and exactly one far sample is used up |
| Simulation.DrawFarSuffix | captain_forever/game.py:52-58 | a draw reads a non-empty prefix of the stream. Every sample before the last one read is within 400 of the start, the last one read is the position returned, and the rest is the unread tail |
| Simulation.DrawEnemies | captain_forever/game.py:51-62 | n rounds accept exactly n positions and use up exactly n far samples |
| Simulation.DrawEnemiesFacts | captain_forever/game.py:51-62 | every accepted position is far from the start and comes from the stream; what is left is the unread tail |
| Simulation.DrawnAreSamples | captain_forever/game.py:51-62 | positions drawn from valid samples, and the rest of the stream, are valid samples |
| Simulation.InitialWorldShape | captain_forever/game.py:30-62 | a new game has a full-health player at rest at (400, 400) facing up. It has three fresh enemies farther than 400 from it, no bullets or fires, a zero counter and no message, and it satisfies the invariant |
| Simulation.MoveEnemies | captain_forever/game.py:205-211 | every enemy is moved once, and at most one bullet per enemy is fired. Which enemies fire, and their bullets, are stated by `MoveEnemiesShots`; each enemy's move is stated by `MoveEnemiesPointwise` |
| Simulation.Volley | captain_forever/models.py:350-378 | no ensures: a reference definition of the bullets fired in one loop. There is one per enemy that is aimed within 3 degrees and whose delay passes 1000, in enemy order, each at its enemy and moving along its heading at speed 9 |
| Simulation.VolleyMembers | captain_forever/models.py:350-378 | every enemy that is aimed and whose delay passes 1000 contributes its shot to the volley, and every bullet in the volley is the shot of such an enemy |
| Simulation.MoveEnemiesShots | captain_forever/game.py:205-211 | the bullets the enemy movement collects are exactly the `Volley`: every firing enemy fires once, in order, and no other enemy fires |
| Simulation.MoveEnemiesPointwise | captain_forever/game.py:205-211 | the i-th enemy is moved by its own rule toward the player's old position, and it ends inside the arena |
| Simulation.MovePhaseEffect | captain_forever/game.py:204-218 | every player bullet and every old enemy bullet takes one unwrapped step. Every fire and the player take one wrapped step. The bullets fired this loop are appended unmoved, and they are exactly the `Volley`. Enemies end inside the arena. The player keeps its health and heading; counter, stream and message are unchanged |
| Simulation.MovePhaseConsistent | captain_forever/game.py:204-218 | movement keeps the invariant |
| Simulation.ContactPhaseConsistent | captain_forever/game.py:219-227 | a touching enemy makes the game lost and the player a fire where it stood; a live player is destroyed exactly on contact; the invariant is kept |
| Simulation.SpawnRunShape | captain_forever/game.py:287-301 | a spawn run accepts a prefix of the stream, each sample at least 400 from the player; the first nearer sample ends it and is used up |
| Simulation.SpawnPhaseEffect | captain_forever/game.py:228-233 | with 8 or more enemies nothing changes. Below 8 the counter grows by 5. Once it exceeds 125 per enemy it resets, the run's far samples become enemies at the end of the list, and the stream becomes what the run left. Nothing else changes |
| Simulation.SpawnPhaseConsistent | captain_forever/game.py:228-233 | spawning keeps the invariant: new enemies are inside the arena, and the stream keeps only valid samples |
| Simulation.KeepInsideExact | captain_forever/game.py:235-252 | pruning keeps exactly the bullets inside the closed screen rectangle, each as often as it occurred |
| Simulation.KeepInsideConcat | captain_forever/game.py:235-252 | pruning works piecewise, so the kept bullets stay in their order |
| Simulation.SplitByBullet | captain_forever/game.py:256-261 | one bullet splits the enemies into those it misses and those it touches, without loss or duplication |
| Simulation.HitResolvePartition | captain_forever/game.py:254-261 | the hit pass splits the enemies into survivors that no bullet touches and removed enemies that some bullet touches |
| Simulation.HitResolveSurvivors | captain_forever/game.py:254-261 | the survivors are exactly the untouched enemies in their original order |
| Simulation.HitPhaseConsistent | captain_forever/game.py:254-261 | the hit pass keeps the invariant |
| Simulation.DamageKeeps | captain_forever/game.py:263-272 | the enemy-bullet pass only removes bullets and never moves the player |
| Simulation.DamageEffect | captain_forever/game.py:263-272 | each removed bullet costs one hit point. A surviving player touches no kept bullet. The game is lost exactly when a live player becomes a fire where it stood, after losing exactly its remaining health |
| Simulation.DamageRemovesHitsOnly | captain_forever/game.py:263-272 | only bullets touching the player are removed |
| Simulation.DamageKeepsMisses | captain_forever/game.py:263-272 | if the player survives, exactly the touching bullets are gone and every other bullet is kept as often as it occurred |
| Simulation.DamageAliveBody | captain_forever/game.py:263-266 | a player that is still a ship after the pass keeps its position, velocity, radius and heading; only its health drops |
| Simulation.DamageWrecked | captain_forever/game.py:263-264 | a player that is already a fire takes no hits and removes no bullets |
| Simulation.DamagePhaseConsistent | captain_forever/game.py:263-272 | the pass keeps the invariant; it loses the game exactly when it destroys a live player; enemies, player bullets and fires are untouched |
| Simulation.ActiveConsistent | captain_forever/game.py:204-233 | movement, contact and spawn pacing together keep the invariant |
| Simulation.SettleConsistent | captain_forever/game.py:235-276 | the always-run phases keep the invariant. Afterwards a message is shown exactly when the player is a fire or no enemy is left, and the game is won exactly when no enemy is left |
| Simulation.TickConsistent | captain_forever/game.py:200-276 | every frame keeps the invariant. A message is then shown exactly when the player is destroyed or no enemy is left, and the game is won exactly when no enemy is left |
| Simulation.TickAfterEnd | captain_forever/game.py:200-276 | once decided, nothing moves or spawns and the counter and stream are unchanged. Enemies and bullets of either side only disappear, fires are only added, the player stays where it is, and the game stays decided |
| Simulation.SettleShrinksBullets | captain_forever/game.py:235-272 | the always-run phases never add a bullet to either list and never move one |
| Simulation.SettleBulletsInside | captain_forever/game.py:235-272 | after pruning, hits and enemy fire, every bullet lies inside the closed screen rectangle |
| Simulation.TickBulletsInside | captain_forever/game.py:200-276 | after any frame every bullet of either side lies inside the closed screen rectangle |
| Game.CaptainForever.constructor | captain_forever/game.py:30-62 | the new object holds exactly the initial world drawn from the given positions |
| Game.CaptainForever.PlaceEnemies | captain_forever/game.py:51-62 | the `for` loop places enemies at the positions the rejection draws accept, and returns the unread tail |
| Game.CaptainForever.DrawFarPosition | captain_forever/game.py:52-58 | the `while True` loop returns the first far sample and the tail after it |
| Game.CaptainForever.IsRunning | captain_forever/game.py:136-145 | in a consistent state, a running game is not lost, and a stopped game shows a message |
| Game.CaptainForever.GameObjects | captain_forever/game.py:182-198 | enemies, player bullets, enemy bullets and fires, in that order, then the player last |
| Game.CaptainForever.EndGameMessage | captain_forever/game.py:278-285 | the message becomes the one for the current flag; nothing else changes |
| Game.CaptainForever.PlayerShoot | captain_forever/models.py:253-260 | the player's bullet is appended to the player bullets; nothing else changes |
| Game.CaptainForever.ProcessGameLogic | captain_forever/game.py:200-276 | one frame leaves the object in the state `Tick` gives |
| Game.CaptainForever.MoveEntities | captain_forever/game.py:204-218 | the movement loop leaves the object in the state `MovePhase` gives |
| Game.CaptainForever.MoveEnemyShips | captain_forever/game.py:205-211 | enemies are replaced by their moved selves, and their bullets are appended to the enemy bullets |
| Game.CaptainForever.MoveEach | captain_forever/game.py:205-211 | the loop over the enemies computes what `MoveEnemies` gives |
| Game.CaptainForever.MovePlayerBullets | captain_forever/game.py:212-216 | every player bullet takes one unwrapped step; nothing else changes |
| Game.CaptainForever.MoveEnemyBullets | captain_forever/game.py:212-216 | the first `count` enemy bullets take one step and later ones stay put |
| Game.CaptainForever.MoveFires | captain_forever/game.py:217-218 | every fire steps and wraps; nothing else changes |
| Game.CaptainForever.CheckContact | captain_forever/game.py:219-227 | the loop with `break` gives the state `ContactPhase` gives |
| Game.CaptainForever.PaceSpawning | captain_forever/game.py:228-233 | the pacing leaves the object in the state `SpawnPhase` gives |
| Game.CaptainForever.SpawnEnemy | captain_forever/game.py:287-301 | the draw loop appends the enemies and consumes the samples that `SpawnRun` gives |
| Game.CaptainForever.PruneBullets | captain_forever/game.py:235-252 | both lists are pruned as `PrunePhase` gives |
| Game.CaptainForever.PruneOutside | captain_forever/game.py:236-243 | removing outside bullets from the live list while walking a copy leaves `KeepInside` of it |
| Game.CaptainForever.ResolveBulletHits | captain_forever/game.py:254-261 | the nested loops leave the object in the state `HitPhase` gives |
| Game.CaptainForever.HitEach | captain_forever/game.py:255-261 | the outer loop leaves the survivors of `HitResolve` and one fire per removed enemy, in removal order |
| Game.CaptainForever.RemoveHitBy | captain_forever/game.py:256-261 | the inner loop leaves the enemies the bullet misses and a fire for each one it hits |
| Game.CaptainForever.ResolveEnemyFire | captain_forever/game.py:263-272 | the enemy-bullet loop leaves the object in the state `DamagePhase` gives |
| Game.CaptainForever.DamageEach | captain_forever/game.py:263-272 | the loop computes the player, the kept bullets and the lost flag that `Damage` gives |
| Game.CaptainForever.CheckVictory | captain_forever/game.py:274-276 | with no enemy left the flag becomes "won" and its message is set; otherwise nothing changes |

## Left out

- Drawing and sprites (`draw`, `load_sprite`, the enemy recolouring, `print_text`) are rendering only. Each radius is a given number.
- `main_loop`, the controller and the view are left out: input polling and the frame loop are outside the simulation step. The view's fire expiry and its frame counter are part of the view.
- `Ship.rotate` for the player and the player's thrust are functions on `Ship` values, with no class methods. They are called by the controller, which is not part of this model.
- `_method_flag` is left out: it only records, for tests, which method ran last.
- The `height` property is left out. It returns `self.height`, which recurses without end, and nothing in the core reads it.
- `get_random_velocity` is left out, because the core never calls it.
- Trigonometry, `angle_to` and `normalize` are not modelled. They are supplied through `Turn` and `Aim`.
- Models.NpcMove: it requires that an aimed enemy does not sit exactly on the player. There `normalize` of the zero vector raises, and that crash is not modelled.
- Floating-point rounding is not modelled. Coordinates are exact reals.
- Entities are values, not shared objects. The player ship's bullet callback is the `PlayerShoot` method.
- List removal by object identity is modelled as removal at the walked element's index. Two equal bullets or enemies therefore never get confused, which matches identity comparison.
- Game.CaptainForever.constructor: the source loops `while True` on an unbounded random source. The model requires the stream to hold at least three far positions.
- Game.CaptainForever.SpawnEnemy: the source loops `while True` on an unbounded random source. The model also stops when the finite stream runs out.
- The enemy loop, the constructor loop and the bullet passes run on local copies in static methods, and the results are stored back in the fields afterwards. Bullets that enemies fire are appended once the enemy loop ends. No code reads the list in between, so the end state is the same.
