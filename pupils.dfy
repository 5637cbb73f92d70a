/**
 * The pupil (src/shared/pupil-sim.js): a crosshair kept out of the
 * teacher's spawn area, a throw gated by a cooldown and the pupil's own egg
 * count, and a chicken coop that, clicked, refills two eggs after a delay.
 */
module Pupils {
  import opened Config
  import opened Geometry
  import opened Obstacles
  import opened Wrappers

  /** The mouse as the pupil player last reported it; click is already an edge. */
  datatype PupilInput = PupilInput(mouseX: real, mouseY: real, click: bool)

  /** The fields of a PupilSimulation, without the animation name. */
  datatype PupilState = PupilState(
    eggCount: int, maxEggs: int,
    throwCooldown: real, canThrow: bool,
    isRefilling: bool, refillTimer: real,
    crosshairX: real, crosshairY: real)

  /** The descriptor tryThrowEgg returns; the simulation turns it into a projectile. */
  datatype Throw = Throw(startX: real, startY: real, targetX: real, targetY: real)

  /** The crosshair never goes left of this line (the teacher's spawn plus 40). */
  const SAFE_ZONE_X: real := SPAWN_X + 40.0

  /** Eggs leave from the bottom-right corner. */
  const THROW_X: real := WIDTH - 40.0
  const THROW_Y: real := HEIGHT - 40.0

  /** The constructor. */
  const Initial: PupilState :=
    PupilState(STARTING_EGGS, MAX_EGGS, 0.0, true, false, 0.0, WIDTH / 2.0, HEIGHT / 2.0)

  /**
   * The pupil's invariant: the egg count lies in [0, maxEggs]; a throw is
   * possible exactly when no cooldown runs; a refill runs only with an egg
   * missing and with time left on its timer; the crosshair is in the
   * danger zone.
   */
  predicate PupilInvariant(p: PupilState) {
    p.maxEggs == MAX_EGGS && 0 <= p.eggCount <= p.maxEggs &&
    0.0 <= p.throwCooldown && (p.canThrow <==> p.throwCooldown == 0.0) &&
    (p.isRefilling ==> 0.0 < p.refillTimer && p.eggCount < p.maxEggs) &&
    (!p.isRefilling ==> p.refillTimer == 0.0) &&
    SAFE_ZONE_X <= p.crosshairX && 0.0 <= p.crosshairY <= HEIGHT
  }

  lemma InitialIsValid()
    ensures PupilInvariant(Initial)
    ensures Initial.eggCount == STARTING_EGGS && Initial.canThrow && !Initial.isRefilling
  {
  }

  function MinInt(a: int, b: int): int { if a <= b then a else b }

  /** completeRefill: stop refilling and add REFILL_AMOUNT eggs, never past maxEggs. */
  function RefillCompleted(p: PupilState): (r: PupilState)
    ensures r == p.(isRefilling := false, refillTimer := 0.0, eggCount := r.eggCount)
    ensures p.eggCount <= p.maxEggs ==> p.eggCount <= r.eggCount <= p.maxEggs
    ensures r.eggCount <= p.eggCount + REFILL_AMOUNT
    ensures r.eggCount == p.maxEggs || r.eggCount == p.eggCount + REFILL_AMOUNT
  {
    p.(isRefilling := false, refillTimer := 0.0,
       eggCount := MinInt(p.maxEggs, p.eggCount + REFILL_AMOUNT))
  }

  /** startRefill: nothing when the pupil is full or already refilling. */
  function RefillStarted(p: PupilState): (r: PupilState)
    ensures p.eggCount >= p.maxEggs || p.isRefilling ==> r == p
    ensures p.eggCount < p.maxEggs && !p.isRefilling ==>
              r == p.(isRefilling := true, refillTimer := REFILL_DELAY)
  {
    if p.eggCount >= p.maxEggs || p.isRefilling then p
    else p.(isRefilling := true, refillTimer := REFILL_DELAY)
  }

  /**
   * tryThrowEgg: a throw needs canThrow and at least one egg; it spends one
   * egg, starts the cooldown, and aims from the corner at the crosshair.
   */
  function Thrown(p: PupilState): (r: (PupilState, Option<Throw>))
    ensures r.1.Some? <==> p.canThrow && p.eggCount > 0
    ensures r.1.None? ==> r.0 == p
    ensures r.1.Some? ==>
              r.0 == p.(eggCount := p.eggCount - 1, canThrow := false, throwCooldown := EGG_COOLDOWN) &&
              r.1.value == Throw(THROW_X, THROW_Y, p.crosshairX, p.crosshairY)
  {
    if !p.canThrow || p.eggCount <= 0 then (p, None)
    else
      (p.(eggCount := p.eggCount - 1, canThrow := false, throwCooldown := EGG_COOLDOWN),
       Some(Throw(THROW_X, THROW_Y, p.crosshairX, p.crosshairY)))
  }

  /** isOverChickenCoop: inclusive on all four edges. */
  predicate OverCoop(p: PupilState, coop: Obstacle) {
    p.crosshairX >= coop.x && p.crosshairX <= coop.x + coop.width &&
    p.crosshairY >= coop.y && p.crosshairY <= coop.y + coop.height
  }

  /** The coop test is the inclusive point-in-rectangle test at the crosshair. */
  lemma OverCoopIsPointInRect(p: PupilState, coop: Obstacle)
    requires 0.0 <= coop.width && 0.0 <= coop.height
    ensures OverCoop(p, coop) <==>
              PointRectCollision(p.crosshairX, p.crosshairY, coop.x, coop.y, coop.width, coop.height)
  {
  }

  /** obstacles.find(obs => obs.type === 'CHICKEN_COOP'): the first coop, if any. */
  function FindCoop(obstacles: seq<Obstacle>): (r: Option<Obstacle>)
    ensures r.Some? ==> r.value.kind == ChickenCoop &&
                        exists i :: 0 <= i < |obstacles| && obstacles[i] == r.value &&
                                    forall k :: 0 <= k < i ==> obstacles[k].kind != ChickenCoop
    ensures r.None? <==> forall i :: 0 <= i < |obstacles| ==> obstacles[i].kind != ChickenCoop
  {
    if |obstacles| == 0 then None
    else if obstacles[0].kind == ChickenCoop then Some(obstacles[0])
    else
      var rest := FindCoop(obstacles[1..]);
      assert forall i :: 1 <= i < |obstacles| ==> obstacles[i] == obstacles[1..][i - 1];
      rest
  }

  /** The cooldown part of update: a running cooldown counts down and, at 0, allows a throw. */
  function CooldownStep(p: PupilState, dt: real): (r: PupilState)
    ensures r == p.(throwCooldown := r.throwCooldown, canThrow := r.canThrow)
    ensures r.canThrow <==> p.canThrow || (0.0 < p.throwCooldown && p.throwCooldown - dt <= 0.0)
    ensures 0.0 <= p.throwCooldown ==> 0.0 <= r.throwCooldown
    ensures 0.0 < p.throwCooldown && p.throwCooldown - dt <= 0.0 ==> r.throwCooldown == 0.0
    ensures 0.0 < p.throwCooldown && 0.0 < p.throwCooldown - dt ==>
              r.throwCooldown == p.throwCooldown - dt && r.canThrow == p.canThrow
    ensures p.throwCooldown <= 0.0 ==> r == p
  {
    if p.throwCooldown > 0.0 then
      var cd := p.throwCooldown - dt;
      if cd <= 0.0 then p.(throwCooldown := 0.0, canThrow := true)
      else p.(throwCooldown := cd)
    else p
  }

  /** The refill part of update: a running refill counts down and completes at 0. */
  function RefillStep(p: PupilState, dt: real): (r: PupilState)
    ensures !p.isRefilling ==> r == p
    ensures p.isRefilling && p.refillTimer - dt <= 0.0 ==> r == RefillCompleted(p)
    ensures p.isRefilling && 0.0 < p.refillTimer - dt ==> r == p.(refillTimer := p.refillTimer - dt)
  {
    if p.isRefilling then
      var timer := p.refillTimer - dt;
      if timer <= 0.0 then RefillCompleted(p.(refillTimer := timer))
      else p.(refillTimer := timer)
    else p
  }

  /** The crosshair part of update: no further left than SAFE_ZONE_X, y within the screen. */
  function Aimed(p: PupilState, input: PupilInput): (r: PupilState)
    ensures r == p.(crosshairX := r.crosshairX, crosshairY := r.crosshairY)
    ensures r.crosshairX >= SAFE_ZONE_X && 0.0 <= r.crosshairY <= HEIGHT
    ensures input.mouseX >= SAFE_ZONE_X ==> r.crosshairX == input.mouseX
    ensures 0.0 <= input.mouseY <= HEIGHT ==> r.crosshairY == input.mouseY
  {
    p.(crosshairX := Max(input.mouseX, SAFE_ZONE_X), crosshairY := Clamp(input.mouseY, 0.0, HEIGHT))
  }

  /**
   * update(deltaTime, inputs, obstacles): timers, aim, then a click either
   * starts a refill (crosshair over the coop) or tries a throw.
   */
  function Step(p: PupilState, dt: real, input: PupilInput, obstacles: seq<Obstacle>)
    : (r: (PupilState, Option<Throw>))
    ensures r.0.crosshairX >= SAFE_ZONE_X && 0.0 <= r.0.crosshairY <= HEIGHT
    ensures !input.click ==> r.1.None?
    ensures var a := Aimed(RefillStep(CooldownStep(p, dt), dt), input);
            var coop := FindCoop(obstacles);
            (input.click && coop.Some? && OverCoop(a, coop.value) ==>
               r == (RefillStarted(a), None)) &&
            (input.click && !(coop.Some? && OverCoop(a, coop.value)) ==> r == Thrown(a)) &&
            (!input.click ==> r == (a, None)) &&
            (r.1.Some? ==> r == Thrown(a) && a.canThrow && a.eggCount > 0)
  {
    var a := Aimed(RefillStep(CooldownStep(p, dt), dt), input);
    var coop := FindCoop(obstacles);
    if input.click then
      if coop.Some? && OverCoop(a, coop.value) then (RefillStarted(a), None)
      else Thrown(a)
    else (a, None)
  }

  /** Every update keeps the invariant, and so does every throw, refill start and completion. */
  lemma StepKeepsInvariant(p: PupilState, dt: real, input: PupilInput, obstacles: seq<Obstacle>)
    requires PupilInvariant(p)
    ensures PupilInvariant(Step(p, dt, input, obstacles).0)
  {
    var c := CooldownStep(p, dt);
    assert PupilInvariant(c);
    var f := RefillStep(c, dt);
    assert PupilInvariant(f);
  }

  lemma OperationsKeepInvariant(p: PupilState)
    requires PupilInvariant(p)
    ensures PupilInvariant(Thrown(p).0)
    ensures PupilInvariant(RefillStarted(p))
    ensures PupilInvariant(RefillCompleted(p))
  {
  }

  /** A click with the crosshair over the coop never throws. */
  lemma CoopClickNeverThrows(p: PupilState, dt: real, input: PupilInput, obstacles: seq<Obstacle>)
    requires FindCoop(obstacles).Some?
    requires OverCoop(Aimed(RefillStep(CooldownStep(p, dt), dt), input), FindCoop(obstacles).value)
    ensures Step(p, dt, input, obstacles).1.None?
  {
  }

  /** A successful throw spends exactly one egg. */
  lemma ThrowSpendsOneEgg(p: PupilState, dt: real, input: PupilInput, obstacles: seq<Obstacle>)
    requires Step(p, dt, input, obstacles).1.Some?
    ensures Step(p, dt, input, obstacles).0.eggCount ==
            RefillStep(CooldownStep(p, dt), dt).eggCount - 1
    ensures !Step(p, dt, input, obstacles).0.canThrow
    ensures Step(p, dt, input, obstacles).0.throwCooldown == EGG_COOLDOWN
  {
  }

  /** With no eggs left and no refill completing, the pupil cannot throw. */
  lemma NoEggsNoThrow(p: PupilState, dt: real, input: PupilInput, obstacles: seq<Obstacle>)
    requires p.eggCount <= 0 && !p.isRefilling
    ensures Step(p, dt, input, obstacles).1.None?
  {
  }

  /** A PupilSimulation. */
  class Pupil {
    var eggCount: int
    var maxEggs: int
    var throwCooldown: real
    var canThrow: bool
    var isRefilling: bool
    var refillTimer: real
    var crosshairX: real
    var crosshairY: real

    function State(): PupilState
      reads this
    {
      PupilState(eggCount, maxEggs, throwCooldown, canThrow, isRefilling, refillTimer,
                 crosshairX, crosshairY)
    }

    predicate Valid()
      reads this
    {
      PupilInvariant(State())
    }

    constructor ()
      ensures State() == Initial && Valid()
    {
      eggCount := STARTING_EGGS;
      maxEggs := MAX_EGGS;
      throwCooldown := 0.0;
      canThrow := true;
      isRefilling := false;
      refillTimer := 0.0;
      crosshairX := WIDTH / 2.0;
      crosshairY := HEIGHT / 2.0;
    }

    /** update: returns the throw descriptor, or None. */
    method Update(dt: real, input: PupilInput, obstacles: seq<Obstacle>) returns (thrown: Option<Throw>)
      modifies this
      ensures (State(), thrown) == Step(old(State()), dt, input, obstacles)
    {
      if throwCooldown > 0.0 {
        throwCooldown := throwCooldown - dt;
        if throwCooldown <= 0.0 {
          throwCooldown := 0.0;
          canThrow := true;
        }
      }
      if isRefilling {
        refillTimer := refillTimer - dt;
        if refillTimer <= 0.0 {
          CompleteRefill();
        }
      }
      var chickenCoop := FindCoop(obstacles);
      crosshairX := Max(input.mouseX, SAFE_ZONE_X);
      crosshairY := Clamp(input.mouseY, 0.0, HEIGHT);
      if input.click {
        if chickenCoop.Some? && IsOverChickenCoop(chickenCoop.value) {
          StartRefill();
          return None;
        }
        thrown := TryThrowEgg();
        return;
      }
      return None;
    }

    predicate IsOverChickenCoop(coop: Obstacle)
      reads this
    {
      OverCoop(State(), coop)
    }

    method TryThrowEgg() returns (thrown: Option<Throw>)
      modifies this
      ensures (State(), thrown) == Thrown(old(State()))
    {
      if !canThrow || eggCount <= 0 {
        return None;
      }
      var startX := WIDTH - 40.0;
      var startY := HEIGHT - 40.0;
      var targetX := crosshairX;
      var targetY := crosshairY;
      eggCount := eggCount - 1;
      canThrow := false;
      throwCooldown := EGG_COOLDOWN;
      return Some(Throw(startX, startY, targetX, targetY));
    }

    method StartRefill()
      modifies this
      ensures State() == RefillStarted(old(State()))
    {
      if eggCount >= maxEggs || isRefilling {
        return;
      }
      isRefilling := true;
      refillTimer := REFILL_DELAY;
    }

    method CompleteRefill()
      modifies this
      ensures State() == RefillCompleted(old(State()))
    {
      isRefilling := false;
      refillTimer := 0.0;
      var eggsToAdd := REFILL_AMOUNT;
      eggCount := MinInt(maxEggs, eggCount + eggsToAdd);
    }
  }
}
