/**
 * The shared game constants (src/shared/config.js) and the two enumerations
 * the simulation and the room server exchange.  Lengths are pixels, times are
 * seconds; every number is taken from the shared configuration as written.
 */
module Config {

  // SCREEN
  const WIDTH: real := 1408.0
  const HEIGHT: real := 792.0

  // GAME
  const MATCH_DURATION: real := 90.0
  const RESPAWN_INVULNERABILITY: real := 1.5

  // TEACHER
  const TEACHER_SPEED: real := 140.0
  const SPRINT_SPEED_MULTIPLIER: real := 1.6
  const SPRINT_DURATION: real := 0.8
  const SPRINT_COOLDOWN: real := 6.0
  const TEACHER_HITBOX_RADIUS: real := 16.0
  const SPAWN_X: real := 110.0
  const SPAWN_Y: real := 396.0
  const GOAL_X: real := 1298.0

  // PUPIL
  const STARTING_EGGS: int := 5
  const MAX_EGGS: int := 5
  const EGG_COOLDOWN: real := 0.8
  const REFILL_DELAY: real := 0.75
  const REFILL_AMOUNT: int := 2

  // EGG
  const EGG_SPEED: real := 1200.0
  const ARC_HEIGHT: real := 100.0
  const EGG_HITBOX_RADIUS: real := 8.0

  // OBSTACLES (width, height)
  const BUSH_WIDTH: real := 60.0
  const BUSH_HEIGHT: real := 60.0
  const BUSH_CAN_HIDE: bool := true
  const BENCH_WIDTH: real := 80.0
  const BENCH_HEIGHT: real := 40.0
  const TREE_WIDTH: real := 50.0
  const TREE_HEIGHT: real := 80.0
  const SWING_SET_WIDTH: real := 100.0
  const SWING_SET_HEIGHT: real := 120.0
  const CHICKEN_COOP_WIDTH: real := 120.0
  const CHICKEN_COOP_HEIGHT: real := 115.0

  /** GAME_STATE: there is no countdown state; the room counts down in LOBBY. */
  datatype GameState = Lobby | Playing | GameOver

  /** WINNER */
  datatype Winner = NoWinner | TeacherWins | PupilWins
}
