# Recess Revenge — a verified model of the game core

Recess Revenge is a two-team browser game. A teacher (keyboard) crosses a
school yard from the spawn point on the left to the goal line on the right,
dodging bushes, benches, trees and a swing set. A pupil (mouse) lobs eggs
at the teacher from the bottom-right corner and refills at the chicken coop.
A round lasts 90 seconds. The teacher wins on reaching the goal line; the
pupil wins when the clock runs out. Every egg that hits sends the teacher
back to the spawn point with a short spell of invulnerability.

This project models the authoritative core in Dafny:

- **Geometry** (`src/shared/utils.js`, and its copy `src/utils.js`):
  distance, circle/circle, circle/rectangle and point/rectangle tests, clamp,
  lerp and normalize. `Math.sqrt` is a parameter `sqrt` constrained by
  `IsSqrt` (a non-negative root whose square is its argument).
- **Obstacles**: the deterministic yard layout of `createObstacleLayout`,
  with its placement check.
- **Projectiles**: launch, flight along the parabolic arc, landing, and the
  shared id counter (an `IdCounter` object, standing for the module-level
  `nextProjectileId`; id `n` stands for the string `'p' + n`).
- **Pupils and Teachers**: each entity is a value (`PupilState`,
  `TeacherState`) with pure step functions that carry the proofs. Each also
  has a class (`Pupil`, `Teacher`) with the source's fields, whose methods
  update those fields in place and are proved equal to the step functions.
- **Collision**: the shared collision manager (egg/teacher hits, filtered
  to eggs in flight or just landed).
- **Simulation**: `GameSimulation`, with the round's clock, winners,
  throws, hits, splats, the event buffer and `serialize`. `Tick` is the pure
  reference; `GameSimulation.Update` is proved to follow it.
- **SimulationProperties**: what one tick does to the clock, the winner,
  the projectiles and the events. This includes "at most one game-over
  event per round" and "each event is serialized once".
- **Room**: the PartyKit room server (`src/server/index.ts`). This covers
  players and roles, the lobby, the 3-2-1 countdown, the game loop and
  `gameTick` with the input gathering and click edge detection. Outgoing
  broadcasts and sends are appended to an `outbox` sequence. The interval
  timers are booleans (`countdownRunning`, `gameLoop`) with explicit step
  methods (`CountdownStep`, `GameTick`). Corrected: the game tick hands
  each entity its team's slot input (slot 0, else slot 1). As written, the
  source hands over the whole slot-keyed record, which the entities cannot
  read (see "## Findings"); `GatherInputs`, `Played`, `Ticked`, `PlayTick`
  and `GameTick` model the corrected behaviour.
- **RoomProperties**: the room's rules stated as lemmas. These cover role
  uniqueness, role switching, the start gate, the countdown, restart, close,
  click edges and the tick.
- **Interpolation**: the client's `StateInterpolator`. It buffers the last four
  snapshots and blends two of them, 60 ms behind the current time.
- **LegacyCollision**: the collision manager of the older single-player
  build (`src/collision.js`), with that build's constants.

## Model

| member | source | states |
|---|---|---|
| Geometry.Distance | src/shared/utils.js:11-15 | The distance is non-negative and its square is the squared coordinate difference (src/utils.js:16-20 is the same function). |
| Geometry.DistanceSymmetric | src/shared/utils.js:11-15 | The distance from A to B equals the distance from B to A. |
| Geometry.DistanceToSelf | src/shared/utils.js:11-15 | A point is at distance 0 from itself. |
| Geometry.CircleCollision | src/shared/utils.js:17-20 | Two circles collide iff the radius sum is positive and the squared centre distance is strictly below its square (src/utils.js:25-28 is the same function). |
| Geometry.CircleCollisionSymmetric | src/shared/utils.js:17-20 | Swapping the two circles does not change the answer. |
| Geometry.CircleCollisionStrictAtContact | src/shared/utils.js:17-20 | Circles whose centres are exactly r1 + r2 apart do not collide. |
| Geometry.PointRectCollision | src/shared/utils.js:31-33 | For a rectangle of non-negative size, a point is inside iff clamping it into the rectangle leaves it unchanged (src/utils.js:49-51 is the same function). |
| Geometry.PointRectInclusiveEdges | src/shared/utils.js:31-33 | All four corners of the rectangle count as inside: every edge is inclusive. |
| Geometry.CircleRectCollision | src/shared/utils.js:22-29 | A circle with positive radius whose centre is inside the rectangle always collides (src/utils.js:33-44 is the same function). |
| Geometry.NearestPointOfRect | src/shared/utils.js:22-29 | The centre clamped into the rectangle is at least as near to the centre as any point of the rectangle. |
| Geometry.CircleRectMeansNearPoint | src/shared/utils.js:22-29 | The circle/rectangle test holds iff some point of the rectangle lies strictly within the radius of the centre. |
| Geometry.Clamp | src/shared/utils.js:35-37 | The result lies in [min, max] when min <= max, is the value itself when already inside, is min when the bounds are crossed, and is always one of the three inputs (src/utils.js:56-58 is the same function). |
| Geometry.Lerp | src/shared/utils.js:39-41 | t = 0 gives start, t = 1 gives end, and for t in [0, 1] the result lies between start and end (src/utils.js:63-65 is the same function). |
| Geometry.Normalize | src/shared/utils.js:43-47 | The zero vector maps to zero; otherwise the length is positive and the result times the length is the input, so the direction is kept (src/utils.js:70-77 is the same function). |
| Obstacles.IsValidPosition | src/shared/simulation.js:15-25 | The loop answers true iff the box lies in the play area (200 px from the sides, 50 px from top and bottom) and is strictly separated from every placed obstacle. |
| Obstacles.Piece | src/shared/simulation.js:38-91 | A piece has the requested kind and position and a positive size, and it can hide a teacher iff it is a bush. |
| Obstacles.PlaceKind | src/shared/simulation.js:38-81 | One placement loop appends, in order, exactly the candidates that pass the position check against everything placed so far. |
| Obstacles.CreateObstacleLayout | src/shared/simulation.js:10-94 | The imperative layout is the reference layout: the coop first, then the bushes, benches, trees and swing set that fit. |
| Obstacles.PlaceAllChecked | src/shared/simulation.js:15-25 | Placing keeps the earlier obstacles as a prefix and adds only candidates, each inside the play area and separated from all earlier ones. |
| Obstacles.LayoutIsValid | src/shared/simulation.js:15-91 | The layout starts with the coop; every later obstacle is a candidate, lies in the play area and overlaps no earlier one. |
| Obstacles.CandidatesWrittenOut | src/shared/simulation.js:28-91 | The coop and the twelve candidates, with their positions and sizes written out. |
| Obstacles.LayoutContents | src/shared/simulation.js:10-94 | The layout is exactly the coop and the first ten candidates (eleven obstacles). The third tree overlaps the third bench and the swing set overlaps the fifth bush, so both are dropped. |
| Obstacles.CoopIsUnchecked | src/shared/simulation.js:28-35 | The coop is placed without the position check and lies outside the play area (its top is at y = 20). |
| Projectiles.IdCounter.Take | src/shared/projectile-sim.js:6-10 | The id returned is the counter's old value, and the counter grows by one, so ids never repeat. |
| Projectiles.Launch | src/shared/projectile-sim.js:9-29 | A new egg is well formed, at its start point with progress 0, active and not landed, and its flight duration times the egg speed is the start-to-target distance. |
| Projectiles.Advance | src/shared/projectile-sim.js:31-48 | An inactive egg is unchanged. An active egg's progress becomes progress + dt / duration while that is below 1, and the egg stays active. Once the sum reaches 1, or when the duration is 0, progress is exactly 1, the egg has landed and is no longer active. It lands exactly when progress reaches 1. Its position is on the arc, and its identity and trajectory fields are untouched. |
| Projectiles.AdvanceKeepsWellFormed | src/shared/projectile-sim.js:31-48 | Well-formedness (arc position, progress in [0, 1], landed iff progress 1, active iff not landed) is preserved; progress never decreases; a landed egg never changes. |
| Projectiles.LandsOnlyAtTheEnd | src/shared/projectile-sim.js:36-40 | The update that lands an egg clears its active flag in the same step, at progress exactly 1. |
| Projectiles.LandedAtTarget | src/shared/projectile-sim.js:43-47 | A landed egg sits exactly on its target, since the arc offset is 0 at t = 1. |
| Projectiles.AboveTheLine | src/shared/projectile-sim.js:43-47 | An egg is never below the straight start-to-target line: the arc offset is non-negative. |
| Projectiles.ZeroDistanceLandsAtOnce | src/shared/projectile-sim.js:24-40 | A throw at its own start point has duration 0 and lands, in place, on its first update. |
| Projectiles.Projectile.constructor | src/shared/projectile-sim.js:9-29 | The new object's state is `Launch` with the next id, and the shared counter grows by one. |
| Projectiles.Projectile.Update | src/shared/projectile-sim.js:31-48 | The in-place update leaves the fields equal to `Advance` of the old state. |
| Pupils.InitialIsValid | src/shared/pupil-sim.js:7-21 | A new pupil holds 5 eggs, can throw, is not refilling, and satisfies the egg-count and timer invariant. |
| Pupils.CooldownStep | src/shared/pupil-sim.js:28-34 | Only the cooldown fields change. A cooldown at or below 0 leaves the pupil unchanged. A positive cooldown that stays above 0 decreases by dt, and `canThrow` is unchanged. One that reaches 0 is set to 0 and enables throwing. Throwing is possible afterwards iff it was before or the cooldown just reached 0. |
| Pupils.RefillStep | src/shared/pupil-sim.js:37-42 | Not refilling: nothing changes. Refilling: the timer counts down, and the refill completes in the update where it reaches 0. |
| Pupils.FindCoop | src/shared/pupil-sim.js:45 | The first obstacle in list order that is a chicken coop, or none iff there is no coop. |
| Pupils.Aimed | src/shared/pupil-sim.js:48-50 | The crosshair is kept at x >= SPAWN_X + 40 and 0 <= y <= HEIGHT and follows the mouse whenever the mouse is inside those bounds; nothing else changes. |
| Pupils.OverCoopIsPointInRect | src/shared/pupil-sim.js:66-71 | The coop test is the inclusive point-in-rectangle test on the crosshair. |
| Pupils.Thrown | src/shared/pupil-sim.js:73-88 | A throw happens iff the pupil can throw and holds an egg. It then spends one egg, clears `canThrow`, sets the cooldown to EGG_COOLDOWN, and yields a throw from (WIDTH - 40, HEIGHT - 40) to the crosshair. Otherwise nothing changes. |
| Pupils.RefillStarted | src/shared/pupil-sim.js:90-94 | A no-op when full or already refilling; otherwise it starts refilling with timer REFILL_DELAY. |
| Pupils.RefillCompleted | src/shared/pupil-sim.js:96-101 | Refilling stops, the timer is 0, and the egg count becomes min(maxEggs, eggCount + REFILL_AMOUNT). |
| Pupils.Step | src/shared/pupil-sim.js:24-64 | The crosshair ends within bounds. With no click, the result is the timed and aimed state, and nothing is thrown. A click over the first coop starts a refill and throws nothing. A click anywhere else is `Thrown` of the timed and aimed state. Any egg thrown comes from a pupil that could throw and had eggs. |
| Pupils.StepKeepsInvariant | src/shared/pupil-sim.js:24-64 | 0 <= eggCount <= maxEggs, the cooldown/canThrow link and the refill-timer link survive every update. |
| Pupils.OperationsKeepInvariant | src/shared/pupil-sim.js:73-101 | `tryThrowEgg`, `startRefill` and `completeRefill` each preserve the pupil invariant. |
| Pupils.CoopClickNeverThrows | src/shared/pupil-sim.js:53-61 | A click with the crosshair on the coop never throws. |
| Pupils.ThrowSpendsOneEgg | src/shared/pupil-sim.js:73-84 | An update that throws leaves exactly one egg fewer than before the click, with `canThrow` false and the cooldown at EGG_COOLDOWN. |
| Pupils.NoEggsNoThrow | src/shared/pupil-sim.js:73-88 | A pupil with no eggs and no refill under way never throws. |
| Pupils.Pupil.constructor | src/shared/pupil-sim.js:7-21 | A new object holds the initial pupil state. |
| Pupils.Pupil.Update | src/shared/pupil-sim.js:24-64 | The in-place update and its returned throw are exactly `Step` of the old state. |
| Pupils.Pupil.TryThrowEgg | src/shared/pupil-sim.js:73-88 | The fields and the returned throw are exactly `Thrown` of the old state. |
| Pupils.Pupil.StartRefill | src/shared/pupil-sim.js:90-94 | The fields become `RefillStarted` of the old state. |
| Pupils.Pupil.CompleteRefill | src/shared/pupil-sim.js:96-101 | The fields become `RefillCompleted` of the old state. |
| Teachers.InitialIsValid | src/shared/teacher-sim.js:7-24 | A new teacher satisfies the teacher invariant, is not sprinting, can sprint and is not invulnerable. |
| Teachers.Axis | src/shared/teacher-sim.js:75-88 | One axis of the direction: 0 iff both or neither key is held, +1 iff only the positive key, -1 iff only the negative one. |
| Teachers.Direction | src/shared/teacher-sim.js:75-88 | No keys give (0, 0). Opposite keys cancel. A single axis gives a unit axis vector. Each component's sign follows the keys. The squared length is 0 or 1, so diagonals have length 1. |
| Teachers.InvulnerabilityStep | src/shared/teacher-sim.js:90-98 | Only the invulnerability fields change. The timer counts down by dt and stays non-negative, and invulnerability ends, with timer 0, exactly when it reaches 0. |
| Teachers.CooldownStep | src/shared/teacher-sim.js:101-106 | Only the cooldown fields change. A cooldown at or below 0 leaves the teacher unchanged. A positive cooldown that stays above 0 decreases by dt, and availability is unchanged. One that reaches 0 is set to 0 and makes the sprint available. Availability is gained only that way, and the cooldown stays non-negative. |
| Teachers.SprintStep | src/shared/teacher-sim.js:100-121 | The cooldown runs first (`CooldownStep`). A teacher not sprinting starts a sprint (`SprintStarted`, timer SPRINT_DURATION, not available) iff it is requested and available after the cooldown. Otherwise the teacher is left as the cooldown left it. A sprint that is held with time left after dt continues with its timer reduced by dt. A sprint that is released or expires stops, with timer 0 and cooldown SPRINT_COOLDOWN. Availability returns only at the end of a cooldown. |
| Teachers.Moved | src/shared/teacher-sim.js:33-64 | Velocity is direction times speed (sprint multiplier included). If the candidate position overlaps a non-bush obstacle, the teacher stays put; otherwise it moves there. Either way the position is clamped to [R, WIDTH - R] x [R, HEIGHT - R]. |
| Teachers.Step | src/shared/teacher-sim.js:26-73 | After an update the position is within bounds. `isHidden` holds iff the centre +/- 0.7 R lies inside a hiding bush. The facing follows the horizontal direction. The timers follow the invulnerability and sprint steps. |
| Teachers.Respawned | src/shared/teacher-sim.js:164-173 | The teacher is at (SPAWN_X, SPAWN_Y) with zero velocity, invulnerable for RESPAWN_INVULNERABILITY, and not sprinting. The sprint cooldown, sprint availability, hiding and facing are untouched. |
| Teachers.GoalRules | src/shared/teacher-sim.js:160-162 | `ReachedGoal` (hasReachedGoal) holds iff x >= GOAL_X (1298). A teacher at the spawn point, new or respawned, has not reached the goal. Moved's right-hand clamp edge (WIDTH - R) lies past the goal line, so the goal can be reached, and x = 1297 is short of it. |
| Teachers.StepKeepsInvariant | src/shared/teacher-sim.js:26-73 | The teacher invariant (bounds, invulnerability/timer link, sprinting implies not available, positive cooldown implies not available) survives every update. |
| Teachers.TimedKeepsInvariant | src/shared/teacher-sim.js:90-121 | The timer phase of an update preserves the invariant. |
| Teachers.RespawnKeepsInvariant | src/shared/teacher-sim.js:164-173 | A respawn preserves the invariant. |
| Teachers.InvulnerabilityRunsOut | src/shared/teacher-sim.js:90-98 | An invulnerable teacher stops being invulnerable in exactly the update where dt reaches the remaining time, and the timer is then 0. |
| Teachers.BlockedTeacherStays | src/shared/teacher-sim.js:45-60 | A teacher whose candidate position overlaps a non-bush obstacle keeps its position: there is no sliding. |
| Teachers.FreeTeacherMoves | src/shared/teacher-sim.js:45-64 | An unblocked candidate position inside the bounds is taken exactly. |
| Teachers.BushesNeverBlock | src/shared/teacher-sim.js:45-55 | Bushes never block movement. |
| Teachers.NoBushNoHiding | src/shared/teacher-sim.js:135-150 | Without bushes a teacher is never hidden. |
| Teachers.SprintLostIsPermanent | src/shared/teacher-sim.js:100-173 | A teacher not sprinting, with sprint unavailable and no cooldown under way, stays so through any update and any respawn. |
| Teachers.RespawnMidSprintLosesSprint | src/shared/teacher-sim.js:164-173 | A respawn while sprinting leaves the teacher in that state: the sprint never comes back. |
| Teachers.Teacher.constructor | src/shared/teacher-sim.js:7-24 | A new object holds the initial teacher state. |
| Teachers.Teacher.UpdateInvulnerability | src/shared/teacher-sim.js:90-98 | The fields become `InvulnerabilityStep` of the old state. |
| Teachers.Teacher.UpdateSprint | src/shared/teacher-sim.js:100-121 | The fields become `SprintStep` of the old state. |
| Teachers.Teacher.StartSprinting | src/shared/teacher-sim.js:123-127 | Sprinting starts with timer SPRINT_DURATION and sprint unavailable; nothing else changes. |
| Teachers.Teacher.StopSprinting | src/shared/teacher-sim.js:129-133 | Sprinting stops with timer 0 and cooldown SPRINT_COOLDOWN; nothing else changes. |
| Teachers.Teacher.UpdateHidingState | src/shared/teacher-sim.js:135-150 | The scan sets `isHidden` to whether some hiding bush contains the centre +/- 0.7 R; nothing else changes. |
| Teachers.Teacher.CanMove | src/shared/teacher-sim.js:45-55 | The obstacle scan answers true iff no non-bush obstacle overlaps the candidate position. |
| Teachers.Teacher.Move | src/shared/teacher-sim.js:33-64 | The movement phase leaves the fields equal to `Moved` of the old state. |
| Teachers.Teacher.Update | src/shared/teacher-sim.js:26-73 | The in-place update leaves the fields equal to `Step` of the old state. |
| Teachers.Teacher.Respawn | src/shared/teacher-sim.js:164-173 | The fields become `Respawned` of the old state. |
| Teachers.Teacher.HasReachedGoal | src/shared/teacher-sim.js:160-162 | The answer is true iff the teacher's x field is at or past GOAL_X, that is `ReachedGoal` of the fields. |
| Collision.EggHitsTeacher | src/shared/collision.js:7-15 | An invulnerable or hidden teacher is never hit. Otherwise an egg hits iff the squared centre distance is below (8 + 16)^2. |
| Collision.HitMeansWithinReach | src/shared/collision.js:11-14 | For an exposed teacher, a hit is exactly a centre distance below EGG.HITBOX_RADIUS + TEACHER.HITBOX_RADIUS. |
| Collision.HitStatesAreReported | src/shared/collision.js:17-26 | An egg state is reported iff it is in the list, in flight or just landed, and hits. |
| Collision.HitsAreTheReported | src/shared/collision.js:17-26 | The hits are exactly the listed projectiles that are active-or-landed and overlapping, and there are no more hits than projectiles. |
| Collision.HitsOfPrefix | src/shared/collision.js:17-26 | Hits keep list order: the hits of a prefix are a prefix of the hits. |
| Collision.NeverReported | src/shared/collision.js:8-21 | A projectile neither active nor landed is never reported, and nothing is reported against an invulnerable or hidden teacher. |
| Collision.SeveralEggsCanHit | src/shared/collision.js:17-26 | Two distinct eggs at the teacher's centre are both reported, in order. |
| Collision.CheckAllProjectileCollisions | src/shared/collision.js:17-26 | The loop returns exactly the reference hit list. It is a method without `modifies`, so neither the projectiles nor the teacher change. |
| Simulation.TeacherMoved | src/shared/simulation.js:139-141 | Only the teacher changes, and a missing teacher stays missing. |
| Simulation.PupilActed | src/shared/simulation.js:148-157 | Only the pupil, the projectiles, the events and the id counter change. |
| Simulation.AdvanceAll | src/shared/simulation.js:166-168 | Every egg advances by dt, and the list keeps its length and order. |
| Simulation.Serialized | src/shared/simulation.js:225-240 | The snapshot carries the buffered events, tick, state, winner and time. Projectile i's view is `ViewOfEgg` of projectile i (id, position, start, target, progress, active). The teacher's and pupil's views are present iff the entity is, and are then `ViewOfTeacher` / `ViewOfPupil` of it. The state is left with an empty event buffer. |
| Simulation.ClockedKeepsSound | src/shared/simulation.js:128-136 | Counting the clock down preserves soundness while time remains. |
| Simulation.TeacherMovedKeepsSound | src/shared/simulation.js:139-141 | The teacher update preserves soundness. |
| Simulation.PupilActedKeepsSound | src/shared/simulation.js:148-157 | A throw keeps every egg well formed and every id below the counter and distinct. |
| Simulation.FlownKeepsSound | src/shared/simulation.js:166-168 | Moving the eggs preserves soundness and the number of eggs. |
| Simulation.WithoutMembers | src/shared/simulation.js:197-214 | Removing a hit egg keeps exactly the eggs with other ids. |
| Simulation.HandleHitKeepsSound | src/shared/simulation.js:197-214 | A hit preserves soundness. |
| Simulation.HandleHitsKeepsSound | src/shared/simulation.js:185-214 | Any sequence of hits preserves soundness. |
| Simulation.ActiveMembers | src/shared/simulation.js:174-182 | The removal pass keeps exactly the active eggs. |
| Simulation.ClearedIsSound | src/shared/simulation.js:174-182 | After the removal pass the state is sound and only active eggs remain. |
| Simulation.CollidedKeepsSound | src/shared/simulation.js:185-195 | Collision handling preserves soundness. |
| Simulation.RestIsValid | src/shared/simulation.js:148-182 | The pupil, projectile, collision and removal phases leave a sound state with only active eggs. |
| Simulation.TickKeepsInvariant | src/shared/simulation.js:125-183 | A tick preserves the simulation invariant: soundness, only active eggs kept, and a teacher and a pupil whenever a round is in play. |
| Simulation.CreatedAndStartedAreValid | src/shared/simulation.js:97-123 | A new simulation and a started round satisfy the invariant, and starting puts the round in play. |
| Simulation.IndexOf | src/shared/simulation.js:210-213 | The index of the first occurrence of the egg, or -1 iff it is absent. |
| Simulation.GameSimulation.constructor | src/shared/simulation.js:97-112 | A new simulation is in the lobby with the full clock, no entities or eggs, and the deterministic layout. |
| Simulation.GameSimulation.StartGame | src/shared/simulation.js:114-123 | The round is in play with a fresh teacher and pupil, the full clock, no winner, eggs or events, and tick 0. |
| Simulation.GameSimulation.EndGame | src/shared/simulation.js:216-223 | The state is game over with the given winner and exactly one game-over event appended. |
| Simulation.GameSimulation.Update | src/shared/simulation.js:125-183 | The in-place update leaves the state equal to `Tick` of the old state and keeps the object invariant. |
| Simulation.GameSimulation.RunClock | src/shared/simulation.js:128-183 | The part of the update after the state guard equals the reference `Running`. |
| Simulation.GameSimulation.AdvanceClock | src/shared/simulation.js:128-131 | The tick counts up by one and the clock down by dt. |
| Simulation.GameSimulation.TimeUp | src/shared/simulation.js:131-136 | The clock is set to 0 and the pupil is declared the winner. |
| Simulation.GameSimulation.MoveTeacher | src/shared/simulation.js:139-145 | The teacher update followed by the goal check equals the reference `Moving`. |
| Simulation.GameSimulation.UpdateEntities | src/shared/simulation.js:148-182 | The pupil, projectile, collision and removal phases equal the reference `Rest`. |
| Simulation.GameSimulation.UpdatePupil | src/shared/simulation.js:148-157 | The pupil's update, with the projectile spawned on a throw, equals `PupilActed`. |
| Simulation.GameSimulation.SpawnProjectile | src/shared/simulation.js:149-157 | A new egg is appended and a throw event with its id recorded. |
| Simulation.GameSimulation.UpdateProjectiles | src/shared/simulation.js:166-168 | Every egg object is advanced in place, which gives `Flown`. |
| Simulation.GameSimulation.CheckCollisions | src/shared/simulation.js:185-195 | The collision pass equals the reference `Collided`. |
| Simulation.GameSimulation.HandleEggHits | src/shared/simulation.js:192-194 | The loop over the hits equals handling them one after another. |
| Simulation.GameSimulation.HandleEggHit | src/shared/simulation.js:197-214 | The teacher respawns, a hit event is recorded, and the egg's first occurrence is spliced out; nothing else changes. |
| Simulation.GameSimulation.RemoveInactive | src/shared/simulation.js:174-182 | The backwards removal loop keeps the active eggs in order and records one splat per landed egg. |
| Simulation.GameSimulation.SpliceInactive | src/shared/simulation.js:174-182 | The kept objects' states are the active states in order, and the splats are those of the landed eggs. |
| Simulation.GameSimulation.Serialize | src/shared/simulation.js:225-240 | The returned snapshot and the new state are exactly `Serialized` of the old state. |
| Simulation.GameSimulation.ReturnToLobby | src/server/index.ts:150 | Only the game state changes, to the lobby. |
| SimulationProperties.TickIdleUnlessPlaying | src/shared/simulation.js:125-128 | Outside a round a tick changes nothing; in a round it counts exactly one tick. |
| SimulationProperties.TimeUpEndsForPupil | src/shared/simulation.js:131-136 | The tick that runs the clock out sets it to 0 and ends the round for the pupil with one game-over event. It touches neither the entities nor the eggs. |
| SimulationProperties.ClockCountsDown | src/shared/simulation.js:131-145 | With time to spare the clock counts down by dt. The round ends iff the moved teacher reached the goal; otherwise it stays in play with the same winner. |
| SimulationProperties.GoalEndsForTeacher | src/shared/simulation.js:139-145 | A teacher that reaches the goal ends the round for the teacher before the pupil and the eggs update. |
| SimulationProperties.ThrowAppendsOneEgg | src/shared/simulation.js:148-157 | No throw leaves the eggs, events and counter alone. A throw appends exactly one fresh in-flight egg with the next id and the throw's endpoints, plus one throw event carrying that id. |
| SimulationProperties.HandleHitsEffect | src/shared/simulation.js:197-214 | Hits add one hit event each, in order, remove exactly the hit eggs' ids, and respawn the teacher if there was any hit. |
| SimulationProperties.RespawnedTwice | src/shared/teacher-sim.js:164-173 | Respawning twice is respawning once, so several hits in one tick act as one. |
| SimulationProperties.HitEggsAreRemoved | src/shared/simulation.js:185-214 | After the collision pass, every hit egg is gone, each with a hit event and no splat, and every other egg remains. |
| SimulationProperties.SplatsOfLanded | src/shared/simulation.js:174-182 | There is exactly one splat per landed egg, at its position. |
| SimulationProperties.ClearedKeepsTheFlying | src/shared/simulation.js:174-182 | Exactly the active eggs remain, and the splats are appended to the events. |
| SimulationProperties.RestAddsNoGameOver | src/shared/simulation.js:148-182 | The pupil, projectile and collision phases only append events, and never a game-over event. |
| SimulationProperties.TickEvents | src/shared/simulation.js:125-183 | A tick only appends events, and it appends a game-over event iff it ends a round in play. |
| SimulationProperties.GameOverAtMostOnce | src/shared/simulation.js:114-223 | The buffer holds at most one game-over event, and only once the round is over. Starting, ticking and serializing keep this. |
| SimulationProperties.EachEventSerializedOnce | src/shared/simulation.js:225-240 | `serialize` returns the buffered events; the next call returns only the events added since. |
| Room.RoleSlot | src/server/index.ts:65-69 | The slot is 0 or 1 for a role and -1 exactly for `unassigned`. |
| Room.RoleTeam | src/server/index.ts:71-75 | There is no team exactly for `unassigned`. |
| Room.TeamAndSlotIdentifyRole | src/server/index.ts:65-75 | Team and slot together identify a role. |
| Room.ParseRole | src/server/index.ts:53-55 | A role name is accepted iff it is one of teacher1, teacher2, pupil1 and pupil2, and never as `unassigned`. |
| Room.Holder | src/server/index.ts:212-215 | The connection found holds the role; none is found only when nobody holds it. |
| Room.SlotInfoOf | src/server/index.ts:212-215 | A slot is taken iff some connection holds the role, and then it names that connection (an empty id reads as none). |
| Room.HasAllPlayers | src/server/index.ts:205-210 | True iff some player is on the teacher team and some player is on the pupil team. |
| Room.LobbyOf | src/server/index.ts:217-227 | The lobby reports the connection count. Each of the four slots is that role's `SlotInfoOf` (taken iff some player holds it, with the holder's id). `canStart` is `hasAllPlayers`. |
| Room.TeacherInputOf | src/server/index.ts:298-299 | A teacher with no input yet contributes no keys. Otherwise the five keys (up, down, left, right, sprint) are those of the latest input. |
| Room.PupilInputOf | src/server/index.ts:302-305 | The click passed on is true iff the button is down now and was not down at the previous tick. The mouse position is the latest input's, or (0, 0) before the first one. |
| Room.AfterGather | src/server/index.ts:302-305 | A pupil remembers whether the button is down now; a teacher is unchanged. |
| Room.Gathered | src/server/index.ts:291-308 | Every connection stays, each updated as `AfterGather`. |
| Room.TeacherSlotsAreTheTeachers | src/server/index.ts:291-308 | The gathered teacher slots are exactly the slots of the connected teachers, each holding that teacher's input. |
| Room.PupilSlotsAreThePupils | src/server/index.ts:291-308 | The gathered pupil slots are exactly the slots of the connected pupils, each holding that pupil's edge-detected input. |
| Room.EntityTeacherInput | src/server/index.ts:291-311 | Corrected: the teacher entity's input is slot 0's, else slot 1's, else no keys. |
| Room.EntityPupilInput | src/server/index.ts:291-311 | Corrected: the pupil entity's input is slot 0's, else slot 1's, else no click. |
| Room.SlotMapInputIsIgnored | src/server/index.ts:291-311 | As written: entities handed the slot maps see neutral input. A teacher holding right does not move, and a pupil's click throws nothing. |
| Room.SlotInputReachesEntities | src/server/index.ts:291-311 | Corrected: with the slot's input picked out, the teacher moves right and the click reaches the pupil. |
| Room.NewPlayerKeepsRolesUnique | src/server/index.ts:90-111 | Adding an unassigned player keeps every role held at most once. |
| Room.ClaimKeepsRolesUnique | src/server/index.ts:121-135 | Claiming a role nobody else holds keeps every role held at most once. |
| Room.RemovalKeepsRolesUnique | src/server/index.ts:175-203 | Removing a player keeps roles unique. |
| Room.GatherKeepsRolesUnique | src/server/index.ts:291-308 | Gathering inputs keeps roles unique. |
| Room.OpenedIsValid | src/server/index.ts:83-88 | A new room satisfies the room invariant (unique roles and a valid simulation). |
| Room.ConnectKeepsInvariant | src/server/index.ts:90-111 | A connection preserves the room invariant. |
| Room.MessageKeepsInvariant | src/server/index.ts:113-173 | Every message preserves the room invariant, so each role is held by at most one connection at any time. |
| Room.CountdownKeepsInvariant | src/server/index.ts:229-251 | A countdown step (and the game start it may trigger) preserves the invariant. |
| Room.CloseKeepsInvariant | src/server/index.ts:175-203 | A disconnect preserves the invariant. |
| Room.TickKeepsRoomInvariant | src/server/index.ts:284-321 | A game tick preserves the invariant. |
| Room.Gather | src/server/index.ts:291-308 | The loop builds exactly the teacher and pupil slot maps and updates every pupil's remembered button. |
| Room.GatherInputs | src/server/index.ts:291-311 | Corrected: the gathered entity inputs are those picked from the slot maps, with the players updated. |
| Room.RoomServer.constructor | src/server/index.ts:83-88 | A new room has no players, a new simulation in the lobby, and no timers. |
| Room.RoomServer.OnConnect | src/server/index.ts:90-111 | The connection becomes an unassigned player, gets its id and the layout, and everyone gets the lobby. |
| Room.RoomServer.OnMessage | src/server/index.ts:113-173 | Each message is dispatched as in `MessageHandled`, and the room invariant is kept. |
| Room.RoomServer.SelectRole | src/server/index.ts:121-135 | The role changes as in `RoleSelected`. |
| Room.RoomServer.Restart | src/server/index.ts:148-159 | The restart acts as in `Restarted`. |
| Room.RoomServer.OnClose | src/server/index.ts:175-203 | The disconnect acts as in `Closed`, and the invariant is kept. |
| Room.RoomServer.Abandon | src/server/index.ts:181-191 | The loop stops, the simulation returns to the lobby, and the disconnect notice is broadcast. |
| Room.RoomServer.BroadcastLobbyState | src/server/index.ts:217-227 | The lobby state is appended to the outbox. |
| Room.RoomServer.StartCountdown | src/server/index.ts:229-251 | No second countdown while one runs; otherwise 3 is broadcast and the countdown set. |
| Room.RoomServer.CountdownStep | src/server/index.ts:238-250 | One firing of the countdown interval, callable only while the interval is set: one second of the countdown, as in `CountdownStepped`, keeping the invariant. |
| Room.RoomServer.StartGame | src/server/index.ts:253-267 | The simulation starts, the team counts are broadcast, and the loop starts. |
| Room.RoomServer.StartGameLoop | src/server/index.ts:269-275 | The loop handle is set. |
| Room.RoomServer.StopGameLoop | src/server/index.ts:277-282 | The loop handle is cleared. |
| Room.RoomServer.GameTick | src/server/index.ts:284-321 | Corrected: one tick as in `Ticked`, keeping the invariant. |
| Room.RoomServer.PlayTick | src/server/index.ts:289-321 | Corrected: in a round: the inputs are gathered, the simulation updated, its snapshot broadcast, and the loop stopped once the round is over. |
| Room.RoomServer.StepSimulation | src/server/index.ts:310-315 | The simulation takes one 1/20 s tick, and the snapshot returned is its serialization. |
| RoomProperties.ConnectAddsAnUnassignedPlayer | src/server/index.ts:90-111 | A connection adds (or resets) one unassigned player and sends the id, the layout and the lobby. The simulation and timers are untouched, and the player count grows by one for a new id. |
| RoomProperties.IgnoredMessages | src/server/index.ts:113-173 | Messages from unknown connections and malformed messages change nothing. |
| RoomProperties.InputOnlyRecords | src/server/index.ts:144-146 | An input message only records the sender's latest input. |
| RoomProperties.SelectRoleRules | src/server/index.ts:121-135 | A role is granted iff the room is in the lobby, the name is valid and no other connection holds the role. A grant sets the sender's role and broadcasts the lobby; a refusal changes nothing. |
| RoomProperties.SwitchingFreesTheOldRole | src/server/index.ts:121-135 | A player switching roles leaves the old role held by nobody. |
| RoomProperties.StartGate | src/server/index.ts:137-141 | `start` launches a countdown only in the lobby with a teacher and a pupil, and never a second one. |
| RoomProperties.CountdownThreeTwoOne | src/server/index.ts:229-251 | The countdown broadcasts 3, 2, 1, then clears itself, starts the round with the team counts, and starts the loop. |
| RoomProperties.TeamRoles | src/server/index.ts:71-75 | Each team has exactly its two roles. |
| RoomProperties.TeamCountBounds | src/server/index.ts:253-256 | With unique roles a team has at most two players, and at least one if anyone holds one of its roles. |
| RoomProperties.CountdownEndsWithTheCurrentTeams | src/server/index.ts:231-258 | The game started at the end of a countdown uses the teams present then. |
| RoomProperties.CountdownDoesNotRecheckTheTeams | src/server/index.ts:229-258 | If the only teacher switches to pupil during the countdown, the round still starts, with 0 teachers and 2 pupils. |
| RoomProperties.RestartRules | src/server/index.ts:148-159 | A restart acts only after a round. It returns to the lobby, resets every player to unassigned with no input and no remembered click, and broadcasts a lobby that cannot start. |
| RoomProperties.ClicksAreRisingEdges | src/server/index.ts:302-305 | Over any sequence of ticks, a click reaches the pupil exactly when the button goes from up to down. |
| RoomProperties.HeldButtonClicksOnce | src/server/index.ts:302-305 | A button held down for many ticks clicks at most once, on the first tick. |
| RoomProperties.CloseRules | src/server/index.ts:175-203 | The player is always removed and the lobby broadcast. A role holder leaving cancels the countdown, and during a round also stops the loop, returns to the lobby and broadcasts the notice. |
| RoomProperties.TickRules | src/server/index.ts:284-321 | Outside a round a tick only stops the loop. In a round a tick remembers the buttons, counts one tick, empties the event buffer and broadcasts the new snapshot, and the loop keeps running iff the round is not over. |
| Interpolation.Buffered | src/client/interpolation.js:10-15 | Adding to a buffer of at most four gives the last four of the entries. |
| Interpolation.BufferKeepsTheNewest | src/client/interpolation.js:10-15 | After any number of additions the buffer holds the newest four entries in arrival order. |
| Interpolation.AddStateRules | src/client/interpolation.js:10-15 | The new entry is last; a full buffer drops its oldest entry first. |
| Interpolation.FirstAfter | src/client/interpolation.js:27-37 | The first index from `from` whose time is past the render time, or none iff every later entry is at or before it. |
| Interpolation.BlendFactor | src/client/interpolation.js:42 | The factor lies in [0, 1], and equals the raw ratio whenever that ratio does. |
| Interpolation.GetStateRules | src/client/interpolation.js:17-44 | An empty buffer gives nothing and a single entry its state. When no entry is past the render time the newest state is returned. Otherwise the first entry past it is blended with its predecessor. |
| Interpolation.EqualTimesRenderB | src/client/interpolation.js:39-40 | A pair with equal times gives B's state. |
| Interpolation.FindEgg | src/client/interpolation.js:67 | The egg found is the first in the list with that id. None is found iff no egg has it. |
| Interpolation.InterpolateRules | src/client/interpolation.js:46-76 | All fields but the positions come from B. Teacher x/y and pupil crossX/crossY are lerped when both sides have them. The eggs are B's: eggs also in A are lerped, eggs only in B keep B's position, and eggs only in A are absent. |
| Interpolation.InterpolateAtOne | src/client/interpolation.js:46-76 | At t = 1 the result is B. |
| Interpolation.MidpointExample | src/client/interpolation.js:21-62 | With A at 1000 ms, B at 1050 ms and render time 1025 ms, the result is the midpoint of the teacher and of the crosshair. |
| Interpolation.StateInterpolator.constructor | src/client/interpolation.js:4-8 | The buffer starts empty. |
| Interpolation.StateInterpolator.AddState | src/client/interpolation.js:10-15 | The buffer becomes `Buffered` of the old buffer and holds at most four entries. |
| Interpolation.StateInterpolator.GetState | src/client/interpolation.js:17-44 | The scan returns exactly the reference `StateAt`. |
| LegacyCollision.EggHitsTeacher | src/collision.js:12-34 | An invulnerable or hidden teacher is never hit. Otherwise an egg hits iff the squared centre distance is below (8 + 16)^2. |
| LegacyCollision.HitsAreTheHitting | src/collision.js:40-50 | An egg is reported iff it is in the list and hits. There is no in-flight filter. |
| LegacyCollision.HitsOfPrefix | src/collision.js:40-50 | Reports keep list order. |
| LegacyCollision.ShieldedTeacherIsNeverHit | src/collision.js:14-21 | An invulnerable or hidden teacher gets no hits. |
| LegacyCollision.CheckAllProjectileCollisions | src/collision.js:40-50 | The loop returns exactly the reference list. |
| LegacyCollision.FirstTouched | src/collision.js:56-71 | The first obstacle in list order that touches the teacher circle, bushes included; none iff none touches. |
| LegacyCollision.BushCountsAsObstacle | src/collision.js:56-71 | A bush counts here, while the shared movement rule walks through it. |
| LegacyCollision.CheckTeacherObstacleCollision | src/collision.js:56-71 | The scan with early return gives exactly `FirstTouched`. |
| LegacyCollision.GoalLineIsNearer | src/collision.js:76-78 | The goal test is x >= 1180. Reaching the shared goal (1298) implies it, and at x = 1200 only this one holds. |
| LegacyCollision.PointOnObject | src/collision.js:83-89 | The test holds iff the point lies within the object's rectangle, edges included. |
| LegacyCollision.CornersAreOnTheObject | src/collision.js:83-89 | All four corners are on the object. |

## Findings

| source | as written | input that shows it | evidently intended | confidence | as-written member | corrected member |
|---|---|---|---|---|---|---|
| src/server/index.ts:291-311 with src/shared/simulation.js:140,149 | `gameTick` collects inputs into slot-keyed records `{0: input}` and passes each record whole to `update`. The entities read `.up`, `.right`, `.mouseX` and `.click` off the record itself (src/shared/teacher-sim.js:75-80, src/shared/pupil-sim.js:48-53), so they see no keys, mouse 0 and no click. | A teacher in slot 0 holding right (`{0: {right: true}}`) and a pupil in slot 0 clicking (`{0: {click: true}}`). The teacher does not move and no egg is thrown. | Each entity gets the input of its team's player (slot 0, else slot 1). | not executed | Room.SlotMapInputIsIgnored (with Room.SlotMapAsTeacherInput, Room.SlotMapAsPupilInput) | Room.SlotInputReachesEntities (with Room.EntityTeacherInput, Room.EntityPupilInput, used by Room.Played) |

Behaviours of the code that the model keeps as written and states as lemmas
(not claimed as bugs):

- **Bushes.** A bush does not block the shared teacher movement, but the older
  single-player collision manager counts it (`LegacyCollision.BushCountsAsObstacle`).
- **Goal line.** That build's goal line is at 1180 px, while the shared one is at
  1298 px (`LegacyCollision.GoalLineIsNearer`).
- **Coop placement.** The coop is placed without the position check and lies
  outside the play area (`Obstacles.CoopIsUnchecked`).
- **Dropped candidates.** The third tree and the swing set never fit the layout (`Obstacles.LayoutContents`).
- **Zero-distance throw.** An egg thrown at its own start point has duration 0 and
  lands on its first update (`Projectiles.ZeroDistanceLandsAtOnce`).
- **Respawn mid-sprint.** A respawn while sprinting leaves the teacher never
  able to sprint again: respawn clears the sprint without starting the cooldown
  (`Teachers.RespawnMidSprintLosesSprint`, `Teachers.SprintLostIsPermanent`).
- **Countdown.** The teams are not re-checked when the countdown ends, so a
  round can start with no teacher
  (`RoomProperties.CountdownDoesNotRecheckTheTeams`).

## Left out

- Real timers (`setInterval`/`clearInterval`) are booleans with explicit step methods: `RoomServer.CountdownStep` is one countdown second and `RoomServer.GameTick` one loop tick.
- `Date.now()` in the interpolator is the parameter `now` (integer milliseconds).
- `Math.sqrt` is the parameter `sqrt`, required to satisfy `IsSqrt`: Dafny has no real square root without an axiom.
- Floating point is modelled as exact `real` arithmetic; `Math.round` in the `serialize` methods is not modelled.
- `JSON.parse`/`JSON.stringify` are left out. Client messages are the datatype `ClientMessage`; a malformed or unknown message is `Unhandled` and changes nothing.
- `room.broadcast` and `connection.send` are entries appended to the room's `outbox`; the network (PartyKit) is not part of this model.
- The `tts` message and `generateTTS` (`src/server/index.ts:12-51,161-168`) are left out. They make an external HTTP call and do not affect the game state.
- The iteration order of the `players` Map is not modelled. Players are a Dafny `map`, and the results do not depend on the order because each role is held at most once.
- The team counts that the room passes to the simulation's `startGame` are not passed: the shared `startGame` takes no parameters and ignores them (`src/shared/simulation.js:114`).
- Animation strings (`currentAnimation`, the throw-to-idle reset at `src/shared/simulation.js:159-162`) and the trajectory preview are presentation and are left out.
- Geometry.Normalize: unit length of a non-zero result is not stated. The contract states length > 0 and result x length = input, which fixes the direction and, given the input, the result.
- Teachers.Step: the position after a move is stated in `Teachers.Moved`; `Step` itself repeats only the bounds, hiding, facing and timers.
- Simulation.HandleHit: its own contract only keeps the teacher present; what hits do is stated by `SimulationProperties.HandleHitsEffect` and `SimulationProperties.HitEggsAreRemoved`.
- Simulation.Collided: its own contract is a frame; what it does is stated by `SimulationProperties.HitEggsAreRemoved`.
- LegacyCollision: the single-player build's teacher and eggs are values carrying only what the collision manager reads; object identity is not modelled.
- The single-player build beyond its collision manager (`src/teacher.js`, `src/pupil.js`, `src/projectile.js`, `src/game.js`, `src/obstacles.js`) is not part of this model. It mixes PIXI sprite updates into every step and fetches its obstacles over the network. Its rules exist sprite-free in the shared simulation.
- Also not part of this model: rendering, effects, audio, commentary, the client network and input glue (`src/client/*` other than the interpolator, `src/input.js`, `src/effects.js`, `src/audio.js`) and `build.js`. They are presentation or I/O.
- `Utils.log` and `Utils.formatTime`, and the PIXI helpers of `src/utils.js`, are not modelled: they are console output and text formatting.
