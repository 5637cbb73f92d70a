/**
 * The teacher (src/shared/teacher-sim.js): eight-way movement at a fixed
 * speed, a sprint with a duration and a cooldown, all-or-nothing blocking by
 * every obstacle that is not a bush, a clamp to the arena, hiding inside
 * bushes, and a respawn with a short invulnerability.
 */
module Teachers {
  import opened Config
  import opened Geometry
  import opened Obstacles

  /** The keys the teacher player holds this tick. */
  datatype TeacherInput = TeacherInput(up: bool, down: bool, left: bool, right: bool, sprint: bool)

  const NoKeys: TeacherInput := TeacherInput(false, false, false, false, false)

  /** The fields of a TeacherSimulation, without the animation name. */
  datatype TeacherState = TeacherState(
    x: real, y: real, velocityX: real, velocityY: real,
    isInvulnerable: bool, invulnerabilityTimer: real,
    isHidden: bool, isSprinting: bool,
    sprintAvailable: bool, sprintTimer: real, sprintCooldownTimer: real,
    facingRight: bool)

  const R: real := TEACHER_HITBOX_RADIUS

  /** How far inside a bush the teacher's centre must be to hide. */
  const HIDE_MARGIN: real := TEACHER_HITBOX_RADIUS * 0.7

  /** The constructor. */
  const Initial: TeacherState := TeacherState(
    SPAWN_X, SPAWN_Y, 0.0, 0.0, false, 0.0, false, false, true, 0.0, 0.0, true)

  /**
   * The teacher's invariant: inside the arena; invulnerable exactly while
   * its timer is positive; sprinting exactly while the sprint timer is
   * positive, and never with sprint available or a cooldown running; a
   * running cooldown means sprint is unavailable.
   */
  predicate TeacherInvariant(t: TeacherState) {
    R <= t.x <= WIDTH - R && R <= t.y <= HEIGHT - R &&
    (t.isInvulnerable ==> 0.0 < t.invulnerabilityTimer) &&
    (!t.isInvulnerable ==> t.invulnerabilityTimer == 0.0) &&
    (t.isSprinting ==> 0.0 < t.sprintTimer && !t.sprintAvailable && t.sprintCooldownTimer == 0.0) &&
    (!t.isSprinting ==> t.sprintTimer == 0.0) &&
    0.0 <= t.sprintCooldownTimer &&
    (0.0 < t.sprintCooldownTimer ==> !t.sprintAvailable)
  }

  lemma InitialIsValid()
    ensures TeacherInvariant(Initial)
    ensures !Initial.isSprinting && Initial.sprintAvailable && !Initial.isInvulnerable
  {
  }

  // ---------------------------------------------------------------- direction

  /** One axis of calculateDirection: -1 for the negative key, +1 for the positive one. */
  function Axis(negative: bool, positive: bool): (a: real)
    ensures a == 0.0 <==> negative == positive
    ensures a == 1.0 <==> positive && !negative
    ensures a == -1.0 <==> negative && !positive
  {
    (if negative then -1.0 else 0.0) + (if positive then 1.0 else 0.0)
  }

  /**
   * calculateDirection: no keys or cancelling keys give a zero component, a
   * single key a unit axis vector, and a diagonal is divided by its length
   * sqrt(2), so every non-zero direction has length 1.
   */
  function Direction(sqrt: real -> real, input: TeacherInput): (d: Vec)
    requires IsSqrt(sqrt)
    ensures !input.up && !input.down && !input.left && !input.right ==> d == Vec(0.0, 0.0)
    ensures input.up == input.down ==> d.y == 0.0
    ensures input.left == input.right ==> d.x == 0.0
    ensures input.up == input.down || input.left == input.right ==>
              d == Vec(Axis(input.left, input.right), Axis(input.up, input.down))
    ensures 0.0 < d.x <==> input.right && !input.left
    ensures d.x < 0.0 <==> input.left && !input.right
    ensures 0.0 < d.y <==> input.down && !input.up
    ensures d.y < 0.0 <==> input.up && !input.down
    ensures d.x * d.x + d.y * d.y == 0.0 || d.x * d.x + d.y * d.y == 1.0
  {
    var x := Axis(input.left, input.right);
    var y := Axis(input.up, input.down);
    if x != 0.0 && y != 0.0 then
      var len := DiagonalLength(sqrt, x, y);
      DiagonalUnit(len, x, y);
      Vec(x / len, y / len)
    else
      Vec(x, y)
  }

  /** The length sqrt(x * x + y * y) of a diagonal key vector is sqrt(2). */
  function DiagonalLength(sqrt: real -> real, x: real, y: real): (len: real)
    requires IsSqrt(sqrt)
    requires x == 1.0 || x == -1.0
    requires y == 1.0 || y == -1.0
    ensures len == sqrt(x * x + y * y) && 0.0 < len && len * len == 2.0
  {
    assert x * x + y * y == 2.0;
    SqrtPositiveEverywhere(sqrt);
    sqrt(x * x + y * y)
  }

  /** Dividing a diagonal key vector by sqrt(2) gives length 1 and keeps the signs. */
  lemma DiagonalUnit(s: real, x: real, y: real)
    requires s * s == 2.0 && 0.0 < s
    requires x == 1.0 || x == -1.0
    requires y == 1.0 || y == -1.0
    ensures (x / s) * (x / s) + (y / s) * (y / s) == 1.0
    ensures (0.0 < x / s <==> x == 1.0) && (0.0 < y / s <==> y == 1.0)
  {
    var u := 1.0 / s;
    assert u * s == 1.0;
    assert 0.0 < u;
    assert x / s == x * u;
    assert y / s == y * u;
    assert (x * u) * (x * u) == u * u;
    assert (y * u) * (y * u) == u * u;
    assert (u * u) * (s * s) == (u * s) * (u * s);
  }

  // ------------------------------------------------------------------ timers

  /** updateInvulnerability */
  function InvulnerabilityStep(t: TeacherState, dt: real): (r: TeacherState)
    ensures r == t.(isInvulnerable := r.isInvulnerable, invulnerabilityTimer := r.invulnerabilityTimer)
    ensures !t.isInvulnerable ==> r == t
    ensures t.isInvulnerable ==>
              (r.isInvulnerable <==> 0.0 < t.invulnerabilityTimer - dt) &&
              (r.isInvulnerable ==> r.invulnerabilityTimer == t.invulnerabilityTimer - dt) &&
              (!r.isInvulnerable ==> r.invulnerabilityTimer == 0.0)
  {
    if !t.isInvulnerable then t
    else
      var timer := t.invulnerabilityTimer - dt;
      if timer <= 0.0 then t.(isInvulnerable := false, invulnerabilityTimer := 0.0)
      else t.(invulnerabilityTimer := timer)
  }

  /** startSprinting */
  function SprintStarted(t: TeacherState): (r: TeacherState)
    ensures r == t.(isSprinting := true, sprintTimer := SPRINT_DURATION, sprintAvailable := false)
  {
    t.(isSprinting := true, sprintTimer := SPRINT_DURATION, sprintAvailable := false)
  }

  /** stopSprinting */
  function SprintStopped(t: TeacherState): (r: TeacherState)
    ensures r == t.(isSprinting := false, sprintTimer := 0.0, sprintCooldownTimer := SPRINT_COOLDOWN)
  {
    t.(isSprinting := false, sprintTimer := 0.0, sprintCooldownTimer := SPRINT_COOLDOWN)
  }

  /** The cooldown half of updateSprint: a positive cooldown counts down and, at 0, frees the sprint. */
  function CooldownStep(t: TeacherState, dt: real): (r: TeacherState)
    ensures r == t.(sprintCooldownTimer := r.sprintCooldownTimer, sprintAvailable := r.sprintAvailable)
    ensures r.sprintAvailable && !t.sprintAvailable ==>
              0.0 < t.sprintCooldownTimer && t.sprintCooldownTimer - dt <= 0.0
    ensures 0.0 <= t.sprintCooldownTimer ==> 0.0 <= r.sprintCooldownTimer
    ensures 0.0 < t.sprintCooldownTimer && t.sprintCooldownTimer - dt <= 0.0 ==>
              r.sprintAvailable && r.sprintCooldownTimer == 0.0
    ensures 0.0 < t.sprintCooldownTimer && 0.0 < t.sprintCooldownTimer - dt ==>
              r.sprintCooldownTimer == t.sprintCooldownTimer - dt && r.sprintAvailable == t.sprintAvailable
    ensures t.sprintCooldownTimer <= 0.0 ==> r == t
  {
    if t.sprintCooldownTimer > 0.0 then
      var cd := t.sprintCooldownTimer - dt;
      if cd <= 0.0 then t.(sprintCooldownTimer := 0.0, sprintAvailable := true)
      else t.(sprintCooldownTimer := cd)
    else t
  }

  /** updateSprint */
  function SprintStep(t: TeacherState, dt: real, wantsToSprint: bool): (r: TeacherState)
    ensures r == t.(isSprinting := r.isSprinting, sprintAvailable := r.sprintAvailable,
                    sprintTimer := r.sprintTimer, sprintCooldownTimer := r.sprintCooldownTimer)
    ensures !t.isSprinting && r.isSprinting ==> wantsToSprint && CooldownStep(t, dt).sprintAvailable
    ensures !t.isSprinting && r.isSprinting ==> r.sprintTimer == SPRINT_DURATION && !r.sprintAvailable
    ensures t.isSprinting && !r.isSprinting ==>
              r.sprintCooldownTimer == SPRINT_COOLDOWN && r.sprintTimer == 0.0
    ensures t.isSprinting && !wantsToSprint ==> !r.isSprinting
    ensures r.sprintAvailable && !t.sprintAvailable ==>
              0.0 < t.sprintCooldownTimer && t.sprintCooldownTimer - dt <= 0.0
    ensures !t.isSprinting && wantsToSprint && CooldownStep(t, dt).sprintAvailable ==>
              r == SprintStarted(CooldownStep(t, dt))
    ensures !t.isSprinting && !(wantsToSprint && CooldownStep(t, dt).sprintAvailable) ==>
              r == CooldownStep(t, dt)
    ensures t.isSprinting && t.sprintTimer - dt <= 0.0 ==> !r.isSprinting
    ensures t.isSprinting && wantsToSprint && 0.0 < t.sprintTimer - dt ==>
              r == CooldownStep(t, dt).(sprintTimer := t.sprintTimer - dt)
  {
    var c := CooldownStep(t, dt);
    if c.isSprinting then
      var s := c.(sprintTimer := c.sprintTimer - dt);
      if !wantsToSprint || s.sprintTimer <= 0.0 then SprintStopped(s) else s
    else if wantsToSprint && c.sprintAvailable then SprintStarted(c)
    else c
  }

  // ----------------------------------------------------------- obstacles

  /** An obstacle that is not a bush blocks a teacher circle it touches. */
  predicate Blocks(o: Obstacle, x: real, y: real) {
    o.kind != Bush && CircleRectCollision(x, y, R, o.x, o.y, o.width, o.height)
  }

  predicate Blocked(obstacles: seq<Obstacle>, x: real, y: real) {
    exists i :: 0 <= i < |obstacles| && Blocks(obstacles[i], x, y)
  }

  /** The centre, widened by HIDE_MARGIN on every side, lies within a bush that can hide. */
  predicate HidesIn(o: Obstacle, x: real, y: real) {
    o.kind == Bush && o.canHide &&
    x - HIDE_MARGIN >= o.x && x + HIDE_MARGIN <= o.x + o.width &&
    y - HIDE_MARGIN >= o.y && y + HIDE_MARGIN <= o.y + o.height
  }

  predicate InBush(obstacles: seq<Obstacle>, x: real, y: real) {
    exists i :: 0 <= i < |obstacles| && HidesIn(obstacles[i], x, y)
  }

  // -------------------------------------------------------------- movement

  function Speed(sprinting: bool): real {
    if sprinting then TEACHER_SPEED * SPRINT_SPEED_MULTIPLIER else TEACHER_SPEED
  }

  /** The facing after moving along `d`: unchanged when d has no horizontal part. */
  function Facing(facingRight: bool, d: Vec): bool {
    if d.x > 0.0 then true else if d.x < 0.0 then false else facingRight
  }

  /** Where a coordinate moving at velocity v is after dt seconds. */
  function Ahead(position: real, v: real, dt: real): real {
    position + v * dt
  }

  /** The candidate position: one tick along the direction at the current speed. */
  function Candidate(sqrt: real -> real, s: TeacherState, dt: real, input: TeacherInput): Vec
    requires IsSqrt(sqrt)
  {
    var d := Direction(sqrt, input);
    var speed := Speed(s.isSprinting);
    Vec(Ahead(s.x, d.x * speed, dt), Ahead(s.y, d.y * speed, dt))
  }

  /**
   * The movement part of update: the velocity is direction times speed; the
   * candidate position is taken only when no blocking obstacle touches it
   * (no sliding along an obstacle), and the result is clamped to the arena.
   */
  function Moved(sqrt: real -> real, s: TeacherState, dt: real, input: TeacherInput,
                 obstacles: seq<Obstacle>): (r: TeacherState)
    requires IsSqrt(sqrt)
    ensures R <= r.x <= WIDTH - R && R <= r.y <= HEIGHT - R
    ensures r == s.(x := r.x, y := r.y, velocityX := r.velocityX, velocityY := r.velocityY)
    ensures r.velocityX == Direction(sqrt, input).x * Speed(s.isSprinting)
    ensures r.velocityY == Direction(sqrt, input).y * Speed(s.isSprinting)
    ensures var next := Candidate(sqrt, s, dt, input);
            if Blocked(obstacles, next.x, next.y)
            then r.x == Clamp(s.x, R, WIDTH - R) && r.y == Clamp(s.y, R, HEIGHT - R)
            else r.x == Clamp(next.x, R, WIDTH - R) && r.y == Clamp(next.y, R, HEIGHT - R)
  {
    var d := Direction(sqrt, input);
    var speed := Speed(s.isSprinting);
    var next := Candidate(sqrt, s, dt, input);
    var p := if Blocked(obstacles, next.x, next.y) then Vec(s.x, s.y) else next;
    s.(velocityX := d.x * speed, velocityY := d.y * speed,
       x := Clamp(p.x, R, WIDTH - R), y := Clamp(p.y, R, HEIGHT - R))
  }

  /** The timer part of update: updateInvulnerability, then updateSprint. */
  function Timed(t: TeacherState, dt: real, input: TeacherInput): TeacherState {
    SprintStep(InvulnerabilityStep(t, dt), dt, input.sprint)
  }

  /**
   * update(deltaTime, inputs, obstacles): timers, movement, the hiding test
   * at the final position, and the facing.
   */
  function Step(sqrt: real -> real, t: TeacherState, dt: real, input: TeacherInput,
                obstacles: seq<Obstacle>): (r: TeacherState)
    requires IsSqrt(sqrt)
    ensures R <= r.x <= WIDTH - R && R <= r.y <= HEIGHT - R
    ensures r.isHidden <==> InBush(obstacles, r.x, r.y)
    ensures r.facingRight == Facing(t.facingRight, Direction(sqrt, input))
    ensures var s := Timed(t, dt, input);
            r.isInvulnerable == s.isInvulnerable && r.invulnerabilityTimer == s.invulnerabilityTimer &&
            r.isSprinting == s.isSprinting && r.sprintAvailable == s.sprintAvailable &&
            r.sprintTimer == s.sprintTimer && r.sprintCooldownTimer == s.sprintCooldownTimer
  {
    var m := Moved(sqrt, Timed(t, dt, input), dt, input, obstacles);
    m.(isHidden := InBush(obstacles, m.x, m.y),
       facingRight := Facing(t.facingRight, Direction(sqrt, input)))
  }

  /** respawn: back to the spawn point, still, invulnerable and not sprinting. */
  function Respawned(t: TeacherState): (r: TeacherState)
    ensures r.x == SPAWN_X && r.y == SPAWN_Y && r.velocityX == 0.0 && r.velocityY == 0.0
    ensures r.isInvulnerable && r.invulnerabilityTimer == RESPAWN_INVULNERABILITY
    ensures !r.isSprinting && r.sprintTimer == 0.0
    ensures r.sprintAvailable == t.sprintAvailable && r.sprintCooldownTimer == t.sprintCooldownTimer
    ensures r.isHidden == t.isHidden && r.facingRight == t.facingRight
  {
    t.(x := SPAWN_X, y := SPAWN_Y, velocityX := 0.0, velocityY := 0.0,
       isInvulnerable := true, invulnerabilityTimer := RESPAWN_INVULNERABILITY,
       isSprinting := false, sprintTimer := 0.0)
  }

  /** hasReachedGoal */
  predicate ReachedGoal(t: TeacherState) {
    t.x >= GOAL_X
  }

  /**
   * The goal line is x = 1298: a teacher at the spawn point (new or
   * respawned) has not reached it, and the right-hand edge of the band
   * Moved clamps to lies past it, so the goal can be reached.
   */
  lemma GoalRules(t: TeacherState)
    ensures ReachedGoal(t) <==> t.x >= 1298.0
    ensures !ReachedGoal(Initial) && !ReachedGoal(Respawned(t))
    ensures ReachedGoal(t.(x := WIDTH - R)) && !ReachedGoal(t.(x := 1297.0))
  {
  }

  // ---------------------------------------------------------------- lemmas

  /** Every update keeps the teacher's invariant. */
  lemma StepKeepsInvariant(sqrt: real -> real, t: TeacherState, dt: real, input: TeacherInput,
                           obstacles: seq<Obstacle>)
    requires IsSqrt(sqrt) && TeacherInvariant(t)
    ensures TeacherInvariant(Step(sqrt, t, dt, input, obstacles))
  {
    TimedKeepsInvariant(t, dt, input);
  }

  /** The two timer updates keep the invariant. */
  lemma TimedKeepsInvariant(t: TeacherState, dt: real, input: TeacherInput)
    requires TeacherInvariant(t)
    ensures TeacherInvariant(Timed(t, dt, input))
  {
  }

  /** Respawning keeps the invariant. */
  lemma RespawnKeepsInvariant(t: TeacherState)
    requires TeacherInvariant(t)
    ensures TeacherInvariant(Respawned(t))
  {
  }

  /**
   * A teacher that is not invulnerable, has no sprint available and no
   * cooldown running can never sprint again: no update and no respawn
   * leaves that state.
   */
  predicate SprintLost(t: TeacherState) {
    !t.isSprinting && !t.sprintAvailable && t.sprintCooldownTimer == 0.0
  }

  lemma SprintLostIsPermanent(sqrt: real -> real, t: TeacherState, dt: real, input: TeacherInput,
                              obstacles: seq<Obstacle>)
    requires IsSqrt(sqrt) && SprintLost(t)
    ensures SprintLost(Step(sqrt, t, dt, input, obstacles))
    ensures SprintLost(Respawned(t))
  {
  }

  /**
   * Respawning in the middle of a sprint loses the sprint for good: the
   * sprint was started with sprint available, so no cooldown runs, and
   * respawn stops the sprint without starting one.
   */
  lemma RespawnMidSprintLosesSprint(t: TeacherState)
    requires TeacherInvariant(t) && t.isSprinting
    ensures SprintLost(Respawned(t))
  {
  }

  /** The invulnerability clears exactly in the update where its timer reaches 0. */
  lemma InvulnerabilityRunsOut(sqrt: real -> real, t: TeacherState, dt: real, input: TeacherInput,
                               obstacles: seq<Obstacle>)
    requires IsSqrt(sqrt) && TeacherInvariant(t) && t.isInvulnerable
    ensures var r := Step(sqrt, t, dt, input, obstacles);
            (!r.isInvulnerable <==> t.invulnerabilityTimer <= dt) &&
            (!r.isInvulnerable ==> r.invulnerabilityTimer == 0.0)
  {
  }

  /** A teacher blocked by an obstacle stays where it was (there is no sliding). */
  lemma BlockedTeacherStays(sqrt: real -> real, t: TeacherState, dt: real, input: TeacherInput,
                            obstacles: seq<Obstacle>)
    requires IsSqrt(sqrt) && TeacherInvariant(t)
    requires Blocked(obstacles, Candidate(sqrt, Timed(t, dt, input), dt, input).x,
                     Candidate(sqrt, Timed(t, dt, input), dt, input).y)
    ensures Step(sqrt, t, dt, input, obstacles).x == t.x
    ensures Step(sqrt, t, dt, input, obstacles).y == t.y
  {
  }

  /** A teacher that nothing blocks moves to the candidate position when that lies in the arena. */
  lemma FreeTeacherMoves(sqrt: real -> real, t: TeacherState, dt: real, input: TeacherInput,
                         obstacles: seq<Obstacle>)
    requires IsSqrt(sqrt)
    requires var next := Candidate(sqrt, Timed(t, dt, input), dt, input);
             !Blocked(obstacles, next.x, next.y) &&
             R <= next.x <= WIDTH - R && R <= next.y <= HEIGHT - R
    ensures Step(sqrt, t, dt, input, obstacles).x == Candidate(sqrt, Timed(t, dt, input), dt, input).x
    ensures Step(sqrt, t, dt, input, obstacles).y == Candidate(sqrt, Timed(t, dt, input), dt, input).y
  {
  }

  /** Bushes never block: with only bushes around, the teacher always moves. */
  lemma BushesNeverBlock(obstacles: seq<Obstacle>, x: real, y: real)
    requires forall i :: 0 <= i < |obstacles| ==> obstacles[i].kind == Bush
    ensures !Blocked(obstacles, x, y)
  {
  }

  /** The teacher cannot hide outside a bush that hides, i.e. with no bushes around. */
  lemma NoBushNoHiding(obstacles: seq<Obstacle>, x: real, y: real)
    requires forall i :: 0 <= i < |obstacles| ==> obstacles[i].kind != Bush
    ensures !InBush(obstacles, x, y)
  {
  }

  /** A TeacherSimulation. */
  class Teacher {
    var x: real
    var y: real
    var velocityX: real
    var velocityY: real
    var isInvulnerable: bool
    var invulnerabilityTimer: real
    var isHidden: bool
    var isSprinting: bool
    var sprintAvailable: bool
    var sprintTimer: real
    var sprintCooldownTimer: real
    var facingRight: bool

    function State(): TeacherState
      reads this
    {
      TeacherState(x, y, velocityX, velocityY, isInvulnerable, invulnerabilityTimer,
                   isHidden, isSprinting, sprintAvailable, sprintTimer, sprintCooldownTimer,
                   facingRight)
    }

    predicate Valid()
      reads this
    {
      TeacherInvariant(State())
    }

    constructor ()
      ensures State() == Initial && Valid()
    {
      x := SPAWN_X;
      y := SPAWN_Y;
      velocityX := 0.0;
      velocityY := 0.0;
      isInvulnerable := false;
      invulnerabilityTimer := 0.0;
      isHidden := false;
      isSprinting := false;
      sprintAvailable := true;
      sprintTimer := 0.0;
      sprintCooldownTimer := 0.0;
      facingRight := true;
    }

    /** hasReachedGoal: whether the teacher's x is at or past the goal line. */
    function HasReachedGoal(): (r: bool)
      reads this
      ensures r <==> x >= GOAL_X
    {
      ReachedGoal(State())
    }

    method UpdateInvulnerability(dt: real)
      modifies this
      ensures State() == InvulnerabilityStep(old(State()), dt)
    {
      if isInvulnerable {
        invulnerabilityTimer := invulnerabilityTimer - dt;
        if invulnerabilityTimer <= 0.0 {
          isInvulnerable := false;
          invulnerabilityTimer := 0.0;
        }
      }
    }

    method UpdateSprint(dt: real, wantsToSprint: bool)
      modifies this
      ensures State() == SprintStep(old(State()), dt, wantsToSprint)
    {
      if sprintCooldownTimer > 0.0 {
        sprintCooldownTimer := sprintCooldownTimer - dt;
        if sprintCooldownTimer <= 0.0 {
          sprintCooldownTimer := 0.0;
          sprintAvailable := true;
        }
      }
      if isSprinting {
        sprintTimer := sprintTimer - dt;
        if !wantsToSprint || sprintTimer <= 0.0 {
          StopSprinting();
        }
      } else if wantsToSprint && sprintAvailable {
        StartSprinting();
      }
    }

    method StartSprinting()
      modifies this
      ensures State() == SprintStarted(old(State()))
    {
      isSprinting := true;
      sprintTimer := SPRINT_DURATION;
      sprintAvailable := false;
    }

    method StopSprinting()
      modifies this
      ensures State() == SprintStopped(old(State()))
    {
      isSprinting := false;
      sprintTimer := 0.0;
      sprintCooldownTimer := SPRINT_COOLDOWN;
    }

    /** updateHidingState: scan for a bush that hides the teacher, stopping at the first. */
    method UpdateHidingState(obstacles: seq<Obstacle>)
      modifies this
      ensures State() == old(State()).(isHidden := InBush(obstacles, x, y))
    {
      var inBush := false;
      for i := 0 to |obstacles|
        invariant inBush == (exists k :: 0 <= k < i && HidesIn(obstacles[k], x, y))
      {
        var o := obstacles[i];
        if o.kind == Bush && o.canHide {
          if x - HIDE_MARGIN >= o.x && x + HIDE_MARGIN <= o.x + o.width &&
             y - HIDE_MARGIN >= o.y && y + HIDE_MARGIN <= o.y + o.height {
            inBush := true;
            break;
          }
        }
      }
      isHidden := inBush;
    }

    /** The obstacle loop of update: every obstacle but a bush is checked, stopping at the first hit. */
    static method CanMove(obstacles: seq<Obstacle>, nextX: real, nextY: real) returns (canMove: bool)
      ensures canMove <==> !Blocked(obstacles, nextX, nextY)
    {
      canMove := true;
      for i := 0 to |obstacles|
        invariant canMove == (forall k :: 0 <= k < i ==> !Blocks(obstacles[k], nextX, nextY))
      {
        var o := obstacles[i];
        if o.kind == Bush {
          continue;
        }
        if CircleRectCollision(nextX, nextY, TEACHER_HITBOX_RADIUS, o.x, o.y, o.width, o.height) {
          canMove := false;
          break;
        }
      }
    }

    /**
     * The movement part of update: velocity from direction and speed, the
     * obstacle scan that stops at the first blocking obstacle, and the clamp.
     */
    method Move(sqrt: real -> real, dt: real, input: TeacherInput, obstacles: seq<Obstacle>)
      requires IsSqrt(sqrt)
      modifies this
      ensures State() == Moved(sqrt, old(State()), dt, input, obstacles)
    {
      ghost var start := State();
      ghost var next := Candidate(sqrt, start, dt, input);
      var direction := Direction(sqrt, input);
      var speed := TEACHER_SPEED;
      if isSprinting {
        speed := speed * SPRINT_SPEED_MULTIPLIER;
      }
      assert speed == Speed(start.isSprinting);
      velocityX := direction.x * speed;
      velocityY := direction.y * speed;
      var nextX := Ahead(x, velocityX, dt);
      var nextY := Ahead(y, velocityY, dt);
      assert nextX == next.x && nextY == next.y;
      var canMove := CanMove(obstacles, nextX, nextY);
      if canMove {
        x := nextX;
        y := nextY;
      }
      x := Clamp(x, TEACHER_HITBOX_RADIUS, WIDTH - TEACHER_HITBOX_RADIUS);
      y := Clamp(y, TEACHER_HITBOX_RADIUS, HEIGHT - TEACHER_HITBOX_RADIUS);
    }

    method Update(sqrt: real -> real, dt: real, input: TeacherInput, obstacles: seq<Obstacle>)
      requires IsSqrt(sqrt)
      modifies this
      ensures State() == Step(sqrt, old(State()), dt, input, obstacles)
    {
      UpdateInvulnerability(dt);
      UpdateSprint(dt, input.sprint);
      Move(sqrt, dt, input, obstacles);
      UpdateHidingState(obstacles);
      var direction := Direction(sqrt, input);
      if direction.x > 0.0 {
        facingRight := true;
      } else if direction.x < 0.0 {
        facingRight := false;
      }
    }

    /** respawn */
    method Respawn()
      modifies this
      ensures State() == Respawned(old(State()))
    {
      x := SPAWN_X;
      y := SPAWN_Y;
      velocityX := 0.0;
      velocityY := 0.0;
      isInvulnerable := true;
      invulnerabilityTimer := RESPAWN_INVULNERABILITY;
      isSprinting := false;
      sprintTimer := 0.0;
    }
  }
}
