/**
 * Egg-on-teacher hit detection (src/shared/collision.js).  An invulnerable
 * or hidden teacher is never hit; otherwise an egg hits when the two hit
 * circles (radius 8 and 16) overlap strictly.  The per-tick scan reports,
 * in list order, every egg still in flight or landed this tick that hits.
 */
module Collision {
  import opened Config
  import opened Geometry
  import opened Projectiles
  import opened Teachers

  /** The two hit radii added: how close the centres must be for a hit. */
  const REACH: real := EGG_HITBOX_RADIUS + TEACHER_HITBOX_RADIUS

  /** checkEggTeacherCollision */
  function EggHitsTeacher(sqrt: real -> real, egg: ProjectileState, teacher: TeacherState): (hit: bool)
    requires IsSqrt(sqrt)
    ensures teacher.isInvulnerable ==> !hit
    ensures teacher.isHidden ==> !hit
    ensures !teacher.isInvulnerable && !teacher.isHidden ==>
              (hit <==> SquaredDistance(egg.x, egg.y, teacher.x, teacher.y) < REACH * REACH)
  {
    if teacher.isInvulnerable then false
    else if teacher.isHidden then false
    else CircleCollision(sqrt, egg.x, egg.y, EGG_HITBOX_RADIUS, teacher.x, teacher.y, TEACHER_HITBOX_RADIUS)
  }

  /** For an exposed teacher a hit means the centres are less than 8 + 16 apart. */
  lemma HitMeansWithinReach(sqrt: real -> real, egg: ProjectileState, teacher: TeacherState)
    requires IsSqrt(sqrt) && !teacher.isInvulnerable && !teacher.isHidden
    ensures EggHitsTeacher(sqrt, egg, teacher) <==>
              Distance(sqrt, egg.x, egg.y, teacher.x, teacher.y) < REACH
  {
    var d := Distance(sqrt, egg.x, egg.y, teacher.x, teacher.y);
    var reach := REACH;
    if d < reach {
      SquareMonotone(d, reach);
    } else {
      SquareMonotoneWeak(reach, d);
    }
  }

  /** The filter of checkAllProjectileCollisions: in flight or landed this tick, and hitting. */
  predicate Reported(sqrt: real -> real, egg: ProjectileState, teacher: TeacherState)
    requires IsSqrt(sqrt)
  {
    (egg.isActive || egg.hasLanded) && EggHitsTeacher(sqrt, egg, teacher)
  }

  /** The projectiles checkAllProjectileCollisions returns, in list order. */
  function Hits(sqrt: real -> real, projectiles: seq<Projectile>, teacher: TeacherState): seq<Projectile>
    requires IsSqrt(sqrt)
    reads projectiles
    decreases |projectiles|
  {
    if |projectiles| == 0 then []
    else
      var last := projectiles[|projectiles| - 1];
      Hits(sqrt, projectiles[..|projectiles| - 1], teacher) +
        (if Reported(sqrt, last.State(), teacher) then [last] else [])
  }

  /** The same filter over projectile states, as the simulation's value model uses it. */
  function HitStates(sqrt: real -> real, eggs: seq<ProjectileState>, teacher: TeacherState): seq<ProjectileState>
    requires IsSqrt(sqrt)
    decreases |eggs|
  {
    if |eggs| == 0 then []
    else
      HitStates(sqrt, eggs[..|eggs| - 1], teacher) +
        (if Reported(sqrt, eggs[|eggs| - 1], teacher) then [eggs[|eggs| - 1]] else [])
  }

  /** The states of the reported projectiles are the reported states. */
  lemma {:induction false} HitsHaveStates(sqrt: real -> real, projectiles: seq<Projectile>,
                                          teacher: TeacherState)
    requires IsSqrt(sqrt)
    ensures States(Hits(sqrt, projectiles, teacher)) == HitStates(sqrt, States(projectiles), teacher)
    decreases |projectiles|
  {
    if |projectiles| > 0 {
      var n := |projectiles| - 1;
      HitsHaveStates(sqrt, projectiles[..n], teacher);
      StatesSlice(projectiles, 0, n);
      var last := projectiles[n];
      StatesAppend(Hits(sqrt, projectiles[..n], teacher),
                   if Reported(sqrt, last.State(), teacher) then [last] else []);
    }
  }

  /** Every reported state is one of the given states, and reported. */
  lemma {:induction false} HitStatesAreReported(sqrt: real -> real, eggs: seq<ProjectileState>,
                                                teacher: TeacherState)
    requires IsSqrt(sqrt)
    ensures forall e :: e in HitStates(sqrt, eggs, teacher) <==> e in eggs && Reported(sqrt, e, teacher)
    decreases |eggs|
  {
    if |eggs| > 0 {
      var front := eggs[..|eggs| - 1];
      HitStatesAreReported(sqrt, front, teacher);
      assert eggs == front + [eggs[|eggs| - 1]];
    }
  }

  /**
   * A projectile is reported exactly when it is in the list, in flight or
   * just landed, and hits; the report is no longer than the list.
   */
  lemma {:induction false} HitsAreTheReported(sqrt: real -> real, projectiles: seq<Projectile>,
                                              teacher: TeacherState)
    requires IsSqrt(sqrt)
    ensures |Hits(sqrt, projectiles, teacher)| <= |projectiles|
    ensures forall p :: p in Hits(sqrt, projectiles, teacher) <==>
                        p in projectiles && Reported(sqrt, p.State(), teacher)
    decreases |projectiles|
  {
    if |projectiles| > 0 {
      var front := projectiles[..|projectiles| - 1];
      HitsAreTheReported(sqrt, front, teacher);
      assert projectiles == front + [projectiles[|projectiles| - 1]];
    }
  }

  /** An egg neither in flight nor landed is never reported, and no egg hits an invulnerable or hidden teacher. */
  lemma NeverReported(sqrt: real -> real, projectiles: seq<Projectile>, teacher: TeacherState, p: Projectile)
    requires IsSqrt(sqrt)
    requires (!p.isActive && !p.hasLanded) || teacher.isInvulnerable || teacher.isHidden
    ensures p !in Hits(sqrt, projectiles, teacher)
  {
    HitsAreTheReported(sqrt, projectiles, teacher);
  }

  /** Reporting keeps list order: the hits of a longer list extend the hits of its prefix. */
  lemma {:induction false} HitsOfPrefix(sqrt: real -> real, projectiles: seq<Projectile>, n: nat,
                                        teacher: TeacherState)
    requires IsSqrt(sqrt) && n <= |projectiles|
    ensures Hits(sqrt, projectiles[..n], teacher) <= Hits(sqrt, projectiles, teacher)
    decreases |projectiles| - n
  {
    if n < |projectiles| {
      HitsOfPrefix(sqrt, projectiles[..|projectiles| - 1], n, teacher);
      assert projectiles[..|projectiles| - 1][..n] == projectiles[..n];
    } else {
      assert projectiles[..n] == projectiles;
    }
  }

  /**
   * Two eggs at the same point both hit an exposed teacher they touch: the
   * scan runs against the teacher as it was before any respawn of this tick.
   */
  lemma SeveralEggsCanHit(sqrt: real -> real, a: Projectile, b: Projectile, teacher: TeacherState)
    requires IsSqrt(sqrt) && a != b
    requires a.isActive && b.isActive && a.x == b.x && a.y == b.y
    requires !teacher.isInvulnerable && !teacher.isHidden && a.x == teacher.x && a.y == teacher.y
    ensures Hits(sqrt, [a, b], teacher) == [a, b]
  {
    assert [a, b][..1] == [a];
    assert [a][..0] == [];
    assert SquaredDistance(a.x, a.y, teacher.x, teacher.y) == 0.0;
    assert SquaredDistance(b.x, b.y, teacher.x, teacher.y) == 0.0;
    assert 0.0 < REACH * REACH;
    assert Reported(sqrt, a.State(), teacher);
    assert Reported(sqrt, b.State(), teacher);
    assert Hits(sqrt, [a], teacher) == [a];
  }

  /** checkAllProjectileCollisions: a read-only scan that collects the hits. */
  method CheckAllProjectileCollisions(sqrt: real -> real, projectiles: seq<Projectile>, teacher: Teacher)
    returns (hits: seq<Projectile>)
    requires IsSqrt(sqrt)
    ensures hits == Hits(sqrt, projectiles, teacher.State())
  {
    hits := [];
    for i := 0 to |projectiles|
      invariant hits == Hits(sqrt, projectiles[..i], teacher.State())
    {
      var projectile := projectiles[i];
      assert projectiles[..i + 1][..i] == projectiles[..i];
      if (projectile.isActive || projectile.hasLanded) &&
         EggHitsTeacher(sqrt, projectile.State(), teacher.State()) {
        hits := hits + [projectile];
      }
    }
    assert projectiles[..|projectiles|] == projectiles;
  }
}
