/**
 * An egg in flight (src/shared/projectile-sim.js).  Progress runs from 0 to 1
 * over distance / EGG_SPEED seconds; x moves linearly from start to target
 * and y is the straight line lifted by a parabolic arc that vanishes at both
 * ends.  The update in which progress reaches 1 lands and deactivates the egg.
 */
module Projectiles {
  import opened Config
  import opened Geometry

  /**
   * The module-level counter nextProjectileId.  An id n stands for the
   * string 'p' + n; the counter starts at 1 and only grows.
   */
  class IdCounter {
    var next: nat

    constructor ()
      ensures next == 1
    {
      next := 1;
    }

    /** Read the counter and increment it (nextProjectileId++). */
    method Take() returns (id: nat)
      modifies this
      ensures id == old(next) && next == old(next) + 1
    {
      id := next;
      next := next + 1;
    }
  }

  /** The fields of a ProjectileSimulation. */
  datatype ProjectileState = ProjectileState(
    id: nat,
    startX: real, startY: real, targetX: real, targetY: real,
    x: real, y: real,
    deltaX: real, deltaY: real, arcHeight: real,
    progress: real, flightDuration: real,
    isActive: bool, hasLanded: bool)

  /** The height of the arc above the straight line at progress t. */
  function ArcOffset(arcHeight: real, t: real): real {
    arcHeight * 4.0 * t * (1.0 - t)
  }

  /** The position on the arc at progress t. */
  predicate OnArc(p: ProjectileState, t: real) {
    p.x == p.startX + p.deltaX * t &&
    p.y == (p.startY + p.deltaY * t) - ArcOffset(p.arcHeight, t)
  }

  /**
   * What every projectile satisfies from its construction on: the deltas
   * and arc height are as constructed, progress lies in [0, 1], an egg is
   * active exactly until it lands, it has landed exactly when progress is 1,
   * and it sits on its arc at its current progress.
   */
  predicate WellFormed(p: ProjectileState) {
    p.deltaX == p.targetX - p.startX && p.deltaY == p.targetY - p.startY &&
    p.arcHeight == ARC_HEIGHT && 0.0 <= p.flightDuration &&
    0.0 <= p.progress <= 1.0 &&
    (p.isActive <==> !p.hasLanded) && (p.hasLanded <==> p.progress == 1.0) &&
    OnArc(p, p.progress)
  }

  /** The constructor; the distance is taken with the given square root. */
  function Launch(sqrt: real -> real, id: nat, startX: real, startY: real,
                  targetX: real, targetY: real): (p: ProjectileState)
    requires IsSqrt(sqrt)
    ensures WellFormed(p)
    ensures p.id == id && p.x == startX && p.y == startY
    ensures p.startX == startX && p.startY == startY && p.targetX == targetX && p.targetY == targetY
    ensures p.progress == 0.0 && p.isActive && !p.hasLanded
    ensures p.flightDuration * EGG_SPEED == Distance(sqrt, startX, startY, targetX, targetY)
  {
    var distance := Distance(sqrt, startX, startY, targetX, targetY);
    ProjectileState(id, startX, startY, targetX, targetY, startX, startY,
                    targetX - startX, targetY - startY, ARC_HEIGHT,
                    0.0, distance / EGG_SPEED, true, false)
  }

  /**
   * update(deltaTime).  A zero flight duration (a throw at its own start
   * point) makes deltaTime / flightDuration infinite in JavaScript, so such
   * an egg lands in its first update.
   */
  function Advance(p: ProjectileState, dt: real): (q: ProjectileState)
    requires 0.0 < dt && 0.0 <= p.flightDuration
    ensures !p.isActive ==> q == p
    ensures p.isActive && p.progress < 1.0 ==> p.progress < q.progress
    ensures p.isActive && !p.hasLanded ==> (q.hasLanded <==> q.progress == 1.0) && q.isActive == !q.hasLanded
    ensures p.isActive && p.flightDuration == 0.0 ==> q.progress == 1.0 && q.hasLanded && !q.isActive
    ensures p.isActive && 0.0 < p.flightDuration && p.progress + dt / p.flightDuration >= 1.0 ==>
              q.progress == 1.0 && q.hasLanded && !q.isActive
    ensures p.isActive && 0.0 < p.flightDuration && p.progress + dt / p.flightDuration < 1.0 ==>
              q.progress == p.progress + dt / p.flightDuration && q.isActive
    ensures q.id == p.id && q.startX == p.startX && q.startY == p.startY
    ensures q.targetX == p.targetX && q.targetY == p.targetY && q.flightDuration == p.flightDuration
    ensures q.deltaX == p.deltaX && q.deltaY == p.deltaY && q.arcHeight == p.arcHeight
    ensures p.isActive ==> OnArc(q, q.progress)
  {
    if !p.isActive then p
    else
      var raised := if p.flightDuration == 0.0 then 1.0 else p.progress + StepFraction(dt, p.flightDuration);
      var q := if raised >= 1.0 then p.(progress := 1.0, hasLanded := true, isActive := false)
               else p.(progress := raised);
      var t := q.progress;
      q.(x := q.startX + q.deltaX * t,
         y := (q.startY + q.deltaY * t) - ArcOffset(q.arcHeight, t))
  }

  /** deltaTime / flightDuration: the share of the flight one update covers. */
  function StepFraction(dt: real, flightDuration: real): (f: real)
    requires 0.0 < dt && 0.0 < flightDuration
    ensures 0.0 < f && f * flightDuration == dt
  {
    DivPositive(dt, flightDuration);
    QuotientTimes(dt, flightDuration);
    dt / flightDuration
  }

  lemma DivPositive(a: real, b: real)
    requires 0.0 < a && 0.0 < b
    ensures 0.0 < a / b
  {
  }

  /** The arc never dips below the straight line while progress is in [0, 1]. */
  lemma ArcOffsetNonNegative(arcHeight: real, t: real)
    requires 0.0 <= arcHeight && 0.0 <= t <= 1.0
    ensures 0.0 <= ArcOffset(arcHeight, t)
  {
    MulNonNegative(t, 1.0 - t);
    MulNonNegative(arcHeight, t * (1.0 - t));
    assert ArcOffset(arcHeight, t) == 4.0 * (arcHeight * (t * (1.0 - t)));
  }

  /** Every update keeps a projectile well formed; progress never decreases. */
  lemma AdvanceKeepsWellFormed(p: ProjectileState, dt: real)
    requires WellFormed(p) && 0.0 < dt
    ensures WellFormed(Advance(p, dt))
    ensures p.progress <= Advance(p, dt).progress <= 1.0
    ensures p.hasLanded ==> Advance(p, dt) == p
  {
  }

  /** A landed egg sits exactly on its target: the arc offset is 0 at t = 1. */
  lemma LandedAtTarget(p: ProjectileState)
    requires WellFormed(p) && p.hasLanded
    ensures p.x == p.targetX && p.y == p.targetY
  {
  }

  /**
   * hasLanded is set only by the update in which progress reaches 1, and
   * that same update clears isActive.
   */
  lemma LandsOnlyAtTheEnd(p: ProjectileState, dt: real)
    requires WellFormed(p) && 0.0 < dt
    requires !p.hasLanded && Advance(p, dt).hasLanded
    ensures p.isActive && !Advance(p, dt).isActive && Advance(p, dt).progress == 1.0
  {
  }

  /** While in flight the egg is never below the straight line from start to target. */
  lemma AboveTheLine(p: ProjectileState)
    requires WellFormed(p)
    ensures p.y <= p.startY + p.deltaY * p.progress
  {
    ArcOffsetNonNegative(p.arcHeight, p.progress);
  }

  /**
   * A throw aimed at its own start point has flight duration 0 and lands,
   * on that point, in its first update.
   */
  lemma ZeroDistanceLandsAtOnce(sqrt: real -> real, id: nat, x: real, y: real, dt: real)
    requires IsSqrt(sqrt) && 0.0 < dt
    ensures Launch(sqrt, id, x, y, x, y).flightDuration == 0.0
    ensures Advance(Launch(sqrt, id, x, y, x, y), dt).hasLanded
    ensures Advance(Launch(sqrt, id, x, y, x, y), dt).x == x
    ensures Advance(Launch(sqrt, id, x, y, x, y), dt).y == y
  {
    DistanceToSelf(sqrt, x, y);
    var p := Advance(Launch(sqrt, id, x, y, x, y), dt);
    AdvanceKeepsWellFormed(Launch(sqrt, id, x, y, x, y), dt);
    LandedAtTarget(p);
  }

  /** The states of a list of projectiles, in list order. */
  function States(ps: seq<Projectile>): (r: seq<ProjectileState>)
    reads ps
    ensures |r| == |ps| && forall i :: 0 <= i < |ps| ==> r[i] == ps[i].State()
  {
    seq(|ps|, i reads ps requires 0 <= i < |ps| => ps[i].State())
  }

  lemma StatesAppend(a: seq<Projectile>, b: seq<Projectile>)
    ensures States(a + b) == States(a) + States(b)
  {
  }

  lemma StatesSlice(a: seq<Projectile>, i: nat, j: nat)
    requires i <= j <= |a|
    ensures States(a[i..j]) == States(a)[i..j]
  {
  }

  /** A ProjectileSimulation: the fields that update changes in place. */
  class Projectile {
    const id: nat
    const startX: real
    const startY: real
    const targetX: real
    const targetY: real
    var x: real
    var y: real
    const deltaX: real
    const deltaY: real
    const arcHeight: real
    var progress: real
    const flightDuration: real
    var isActive: bool
    var hasLanded: bool

    function State(): ProjectileState
      reads this
    {
      ProjectileState(id, startX, startY, targetX, targetY, x, y, deltaX, deltaY,
                      arcHeight, progress, flightDuration, isActive, hasLanded)
    }

    /** new ProjectileSimulation(startX, startY, targetX, targetY): takes the next id. */
    constructor (ids: IdCounter, sqrt: real -> real,
                 startX: real, startY: real, targetX: real, targetY: real)
      requires IsSqrt(sqrt)
      modifies ids
      ensures State() == Launch(sqrt, old(ids.next), startX, startY, targetX, targetY)
      ensures ids.next == old(ids.next) + 1
      ensures Valid()
    {
      var n := ids.Take();
      id := n;
      this.startX := startX;
      this.startY := startY;
      this.targetX := targetX;
      this.targetY := targetY;
      x := startX;
      y := startY;
      deltaX := targetX - startX;
      deltaY := targetY - startY;
      arcHeight := ARC_HEIGHT;
      progress := 0.0;
      var distance := Distance(sqrt, startX, startY, targetX, targetY);
      flightDuration := distance / EGG_SPEED;
      isActive := true;
      hasLanded := false;
    }

    /** Every ProjectileSimulation stays well formed. */
    predicate Valid()
      reads this
    {
      WellFormed(State())
    }

    method Update(dt: real)
      requires 0.0 < dt && Valid()
      modifies this
      ensures State() == Advance(old(State()), dt)
      ensures Valid()
    {
      ghost var after := Advance(State(), dt);
      AdvanceKeepsWellFormed(State(), dt);
      if !isActive {
        return;
      }
      if flightDuration == 0.0 {
        progress := 1.0;
      } else {
        progress := progress + StepFraction(dt, flightDuration);
      }
      if progress >= 1.0 {
        progress := 1.0;
        hasLanded := true;
        isActive := false;
      }
      var t := progress;
      x := startX + deltaX * t;
      var linearY := startY + deltaY * t;
      var arcOffset := ArcOffset(arcHeight, t);
      y := linearY - arcOffset;
      assert State() == after;
    }
  }
}
