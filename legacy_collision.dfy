/**
 * The collision manager of the single-player build (src/collision.js).  It
 * asks the teacher and the eggs for their positions and flags and reads the
 * radii and the goal line from that build's constants (src/config.js).
 * Unlike the shared resolver it has no in-flight filter: every egg in the
 * list is checked.  Its obstacle query counts every obstacle, bushes
 * included, and stops at the first one touched.
 */
module LegacyCollision {
  import opened Wrappers
  import opened Geometry
  import opened Obstacles
  import Teachers

  /** CONFIG.TEACHER.HITBOX_RADIUS, CONFIG.TEACHER.GOAL_X and CONFIG.EGG.HITBOX_RADIUS of that build. */
  const TEACHER_RADIUS: real := 16.0
  const GOAL_X: real := 1180.0
  const EGG_RADIUS: real := 8.0

  /** What the manager reads of a teacher: getPosition, isInvulnerableState, isHiddenState. */
  datatype Teacher = Teacher(x: real, y: real, isInvulnerable: bool, isHidden: bool)

  /** What it reads of an egg: getPosition. */
  datatype Egg = Egg(x: real, y: real)

  // ---------------------------------------------------------------- eggs

  /** checkEggTeacherCollision */
  function EggHitsTeacher(sqrt: real -> real, egg: Egg, teacher: Teacher): (hit: bool)
    requires IsSqrt(sqrt)
    ensures teacher.isInvulnerable ==> !hit
    ensures teacher.isHidden ==> !hit
    ensures !teacher.isInvulnerable && !teacher.isHidden ==>
              (hit <==> SquaredDistance(egg.x, egg.y, teacher.x, teacher.y) <
                        (EGG_RADIUS + TEACHER_RADIUS) * (EGG_RADIUS + TEACHER_RADIUS))
  {
    if teacher.isInvulnerable then false
    else if teacher.isHidden then false
    else CircleCollision(sqrt, egg.x, egg.y, EGG_RADIUS, teacher.x, teacher.y, TEACHER_RADIUS)
  }

  /** The eggs checkAllProjectileCollisions returns, in list order. */
  function Hits(sqrt: real -> real, eggs: seq<Egg>, teacher: Teacher): seq<Egg>
    requires IsSqrt(sqrt)
    decreases |eggs|
  {
    if |eggs| == 0 then []
    else
      var last := eggs[|eggs| - 1];
      Hits(sqrt, eggs[..|eggs| - 1], teacher) + (if EggHitsTeacher(sqrt, last, teacher) then [last] else [])
  }

  /** An egg is reported exactly when it is in the list and hits; the report is no longer than the list. */
  lemma {:induction false} HitsAreTheHitting(sqrt: real -> real, eggs: seq<Egg>, teacher: Teacher)
    requires IsSqrt(sqrt)
    ensures |Hits(sqrt, eggs, teacher)| <= |eggs|
    ensures forall e :: e in Hits(sqrt, eggs, teacher) <==> e in eggs && EggHitsTeacher(sqrt, e, teacher)
    decreases |eggs|
  {
    if |eggs| > 0 {
      var front := eggs[..|eggs| - 1];
      HitsAreTheHitting(sqrt, front, teacher);
      assert eggs == front + [eggs[|eggs| - 1]];
    }
  }

  /** Reporting keeps list order: the hits of a prefix are a prefix of the hits. */
  lemma {:induction false} HitsOfPrefix(sqrt: real -> real, eggs: seq<Egg>, n: nat, teacher: Teacher)
    requires IsSqrt(sqrt) && n <= |eggs|
    ensures Hits(sqrt, eggs[..n], teacher) <= Hits(sqrt, eggs, teacher)
    decreases |eggs| - n
  {
    if n < |eggs| {
      HitsOfPrefix(sqrt, eggs[..|eggs| - 1], n, teacher);
      assert eggs[..|eggs| - 1][..n] == eggs[..n];
    } else {
      assert eggs[..n] == eggs;
    }
  }

  /** An invulnerable or hidden teacher gets no hits at all. */
  lemma {:induction false} ShieldedTeacherIsNeverHit(sqrt: real -> real, eggs: seq<Egg>, teacher: Teacher)
    requires IsSqrt(sqrt) && (teacher.isInvulnerable || teacher.isHidden)
    ensures Hits(sqrt, eggs, teacher) == []
    decreases |eggs|
  {
    if |eggs| > 0 {
      ShieldedTeacherIsNeverHit(sqrt, eggs[..|eggs| - 1], teacher);
    }
  }

  /** checkAllProjectileCollisions: a read-only scan that collects the hits. */
  method CheckAllProjectileCollisions(sqrt: real -> real, eggs: seq<Egg>, teacher: Teacher)
    returns (hits: seq<Egg>)
    requires IsSqrt(sqrt)
    ensures hits == Hits(sqrt, eggs, teacher)
  {
    hits := [];
    for i := 0 to |eggs|
      invariant hits == Hits(sqrt, eggs[..i], teacher)
    {
      assert eggs[..i + 1][..i] == eggs[..i];
      if EggHitsTeacher(sqrt, eggs[i], teacher) {
        hits := hits + [eggs[i]];
      }
    }
    assert eggs[..|eggs|] == eggs;
  }

  // ---------------------------------------------------------------- obstacles

  /** The teacher circle touches an obstacle, whatever its kind. */
  predicate Touches(teacher: Teacher, o: Obstacle) {
    CircleRectCollision(teacher.x, teacher.y, TEACHER_RADIUS, o.x, o.y, o.width, o.height)
  }

  /** The obstacle checkTeacherObstacleCollision returns: the first one touched, or none. */
  function FirstTouched(teacher: Teacher, obstacles: seq<Obstacle>): (r: Option<Obstacle>)
    ensures r.None? <==> forall i :: 0 <= i < |obstacles| ==> !Touches(teacher, obstacles[i])
    ensures r.Some? ==> exists i :: 0 <= i < |obstacles| && obstacles[i] == r.value &&
                                    Touches(teacher, obstacles[i]) &&
                                    forall j :: 0 <= j < i ==> !Touches(teacher, obstacles[j])
    decreases |obstacles|
  {
    if |obstacles| == 0 then None
    else if Touches(teacher, obstacles[0]) then Some(obstacles[0])
    else
      var r := FirstTouched(teacher, obstacles[1..]);
      assert forall i :: 1 <= i < |obstacles| ==> obstacles[i] == obstacles[1..][i - 1];
      r
  }

  /**
   * A bush counts here: a teacher touching a lone bush is reported as
   * colliding with it, while the shared teacher movement walks through it.
   */
  lemma BushCountsAsObstacle(teacher: Teacher, o: Obstacle)
    requires o.kind == Bush && Touches(teacher, o)
    ensures FirstTouched(teacher, [o]) == Some(o)
    ensures !Teachers.Blocked([o], teacher.x, teacher.y)
  {
  }

  /** checkTeacherObstacleCollision: the scan with an early return. */
  method CheckTeacherObstacleCollision(teacher: Teacher, obstacles: seq<Obstacle>) returns (r: Option<Obstacle>)
    ensures r == FirstTouched(teacher, obstacles)
  {
    for i := 0 to |obstacles|
      invariant FirstTouched(teacher, obstacles) == FirstTouched(teacher, obstacles[i..])
    {
      if Touches(teacher, obstacles[i]) {
        return Some(obstacles[i]);
      }
      assert obstacles[i..][1..] == obstacles[i + 1..];
    }
    return None;
  }

  // ---------------------------------------------------------------- goal and points

  /** checkTeacherGoalCollision: hasReachedGoal of that build, x at or past 1180. */
  predicate GoalReached(teacher: Teacher) {
    teacher.x >= GOAL_X
  }

  /**
   * The goal line of this build lies 118 px before the shared one: a teacher
   * between the two lines has reached this goal but not the shared one.
   */
  lemma GoalLineIsNearer(teacher: Teacher, t: Teachers.TeacherState)
    requires t.x == teacher.x
    ensures Teachers.ReachedGoal(t) ==> GoalReached(teacher)
    ensures teacher.x == 1200.0 ==> GoalReached(teacher) && !Teachers.ReachedGoal(t)
  {
  }

  /** checkPointObjectCollision: the inclusive bounds test against the object's rectangle. */
  function PointOnObject(x: real, y: real, o: Obstacle): (on: bool)
    ensures on <==> o.x <= x <= o.x + o.width && o.y <= y <= o.y + o.height
  {
    PointRectCollision(x, y, o.x, o.y, o.width, o.height)
  }

  /** All four corners of an object with non-negative size are on it. */
  lemma CornersAreOnTheObject(o: Obstacle)
    requires 0.0 <= o.width && 0.0 <= o.height
    ensures PointOnObject(o.x, o.y, o) && PointOnObject(o.x + o.width, o.y, o)
    ensures PointOnObject(o.x, o.y + o.height, o) && PointOnObject(o.x + o.width, o.y + o.height, o)
  {
  }
}
