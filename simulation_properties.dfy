/**
 * What one update of GameSimulation promises (src/shared/simulation.js),
 * stated over the value model: the PLAYING guard and the tick count, the
 * two early-returning win conditions, the throw, the hit handling and the
 * removal of landed eggs, the events buffer that only grows and gets at
 * most one gameover per round, and serialize handing every event out once.
 */
module SimulationProperties {
  import opened Wrappers
  import opened Config
  import opened Geometry
  import opened Obstacles
  import opened Projectiles
  import opened Collision
  import opened Simulation
  import Teachers
  import Pupils

  // ------------------------------------------------------------ guard, clock, winners

  /** update does nothing outside PLAYING; each update in PLAYING counts exactly one tick. */
  lemma TickIdleUnlessPlaying(sqrt: real -> real, s: SimState, dt: real, teacherInput: Teachers.TeacherInput,
                              pupilInput: Pupils.PupilInput, obstacles: seq<Obstacle>)
    requires IsSqrt(sqrt) && 0.0 < dt && Sound(s)
    ensures s.state != Playing ==> Tick(sqrt, s, dt, teacherInput, pupilInput, obstacles) == s
    ensures s.state == Playing ==> Tick(sqrt, s, dt, teacherInput, pupilInput, obstacles).tick == s.tick + 1
  {
    if s.state == Playing {
      var c := Clocked(s, dt);
      if c.timeRemaining > 0.0 {
        var m := TeacherMoved(sqrt, c, dt, teacherInput, obstacles);
        TeacherMovedKeepsSound(sqrt, c, dt, teacherInput, obstacles);
        if !(m.teacher.Some? && Teachers.ReachedGoal(m.teacher.value)) {
          assert Rest(sqrt, m, dt, pupilInput, obstacles).tick == m.tick;
        }
      }
    }
  }

  /**
   * The update in which the clock runs out sets it to 0, ends the round
   * for the pupil with one gameover event, and touches no entity.
   */
  lemma TimeUpEndsForPupil(sqrt: real -> real, s: SimState, dt: real, teacherInput: Teachers.TeacherInput,
                           pupilInput: Pupils.PupilInput, obstacles: seq<Obstacle>)
    requires IsSqrt(sqrt) && 0.0 < dt && Sound(s) && s.state == Playing && s.timeRemaining <= dt
    ensures var r := Tick(sqrt, s, dt, teacherInput, pupilInput, obstacles);
            r.state == GameOver && r.winner == PupilWins && r.timeRemaining == 0.0 &&
            r.teacher == s.teacher && r.pupil == s.pupil && r.projectiles == s.projectiles &&
            r.events == s.events + [GameOverEvent(PupilWins)] && r.nextId == s.nextId
  {
  }

  /**
   * Otherwise the clock counts down by dt, and the round ends exactly when
   * the moved teacher stands at the goal (a win for the teacher).
   */
  lemma ClockCountsDown(sqrt: real -> real, s: SimState, dt: real, teacherInput: Teachers.TeacherInput,
                        pupilInput: Pupils.PupilInput, obstacles: seq<Obstacle>)
    requires IsSqrt(sqrt) && 0.0 < dt && Sound(s) && s.state == Playing && dt < s.timeRemaining
    ensures var r := Tick(sqrt, s, dt, teacherInput, pupilInput, obstacles);
            r.timeRemaining == s.timeRemaining - dt &&
            (r.state == GameOver <==>
               s.teacher.Some? && Teachers.ReachedGoal(Teachers.Step(sqrt, s.teacher.value, dt, teacherInput, obstacles))) &&
            (r.state != GameOver ==> r.state == Playing && r.winner == s.winner)
  {
    var c := Clocked(s, dt);
    var m := TeacherMoved(sqrt, c, dt, teacherInput, obstacles);
    TeacherMovedKeepsSound(sqrt, c, dt, teacherInput, obstacles);
    if !(m.teacher.Some? && Teachers.ReachedGoal(m.teacher.value)) {
      var r := Rest(sqrt, m, dt, pupilInput, obstacles);
      assert r.state == m.state && r.timeRemaining == m.timeRemaining && r.winner == m.winner;
    }
  }

  /**
   * A teacher that reaches the goal ends the round for the teacher before
   * the pupil or any egg moves: only the teacher has changed.
   */
  lemma GoalEndsForTeacher(sqrt: real -> real, s: SimState, dt: real, teacherInput: Teachers.TeacherInput,
                           pupilInput: Pupils.PupilInput, obstacles: seq<Obstacle>)
    requires IsSqrt(sqrt) && 0.0 < dt && Sound(s) && s.state == Playing && dt < s.timeRemaining
    requires s.teacher.Some?
    requires Teachers.ReachedGoal(Teachers.Step(sqrt, s.teacher.value, dt, teacherInput, obstacles))
    ensures var r := Tick(sqrt, s, dt, teacherInput, pupilInput, obstacles);
            r.state == GameOver && r.winner == TeacherWins &&
            r.teacher == Some(Teachers.Step(sqrt, s.teacher.value, dt, teacherInput, obstacles)) &&
            r.pupil == s.pupil && r.projectiles == s.projectiles && r.nextId == s.nextId &&
            r.events == s.events + [GameOverEvent(TeacherWins)]
  {
  }

  // ------------------------------------------------------------ the throw

  /**
   * A throw appends exactly one egg, launched from the throw's start point
   * towards its target with the next id (an id no egg in the list has), and
   * one throw event carrying that id; without a throw the list, the events
   * and the counter stay as they are.
   */
  lemma ThrowAppendsOneEgg(sqrt: real -> real, s: SimState, dt: real, input: Pupils.PupilInput,
                           obstacles: seq<Obstacle>)
    requires IsSqrt(sqrt) && Sound(s) && s.pupil.Some?
    ensures var step := Pupils.Step(s.pupil.value, dt, input, obstacles);
            var r := PupilActed(sqrt, s, dt, input, obstacles);
            r.pupil == Some(step.0) &&
            (step.1.None? ==> r.projectiles == s.projectiles && r.events == s.events && r.nextId == s.nextId) &&
            (step.1.Some? ==>
               |r.projectiles| == |s.projectiles| + 1 && r.projectiles[..|s.projectiles|] == s.projectiles &&
               r.nextId == s.nextId + 1 &&
               var egg := r.projectiles[|s.projectiles|];
               egg.id == s.nextId && egg.isActive && !egg.hasLanded && egg.progress == 0.0 &&
               egg.x == step.1.value.startX && egg.y == step.1.value.startY &&
               egg.targetX == step.1.value.targetX && egg.targetY == step.1.value.targetY &&
               r.events == s.events + [ThrowEvent(egg.id)] &&
               forall e :: e in s.projectiles ==> e.id != egg.id)
  {
    var step := Pupils.Step(s.pupil.value, dt, input, obstacles);
    if step.1.Some? {
      var r := PupilActed(sqrt, s, dt, input, obstacles);
      assert r.projectiles[..|s.projectiles|] == s.projectiles;
    }
  }

  // ------------------------------------------------------------ hits

  /** The hit events of handleEggHit for the given eggs, in order. */
  function HitEvents(eggs: seq<ProjectileState>): (r: seq<Event>)
    ensures |r| == |eggs| && forall i :: 0 <= i < |eggs| ==> r[i] == HitEvent(eggs[i].x, eggs[i].y, eggs[i].id)
  {
    seq(|eggs|, i requires 0 <= i < |eggs| => HitEvent(eggs[i].x, eggs[i].y, eggs[i].id))
  }

  /**
   * Handling the hits appends one hit event per hit egg in order, takes
   * out every egg carrying a hit egg's id and nothing else, and leaves the
   * teacher respawned once there was at least one hit.
   */
  lemma {:induction false} HandleHitsEffect(s: SimState, eggs: seq<ProjectileState>)
    requires s.teacher.Some?
    ensures var r := HandleHits(s, eggs);
            r.events == s.events + HitEvents(eggs) &&
            (forall e :: e in r.projectiles <==> e in s.projectiles && forall h :: h in eggs ==> h.id != e.id) &&
            r.teacher == (if |eggs| == 0 then s.teacher else Some(Teachers.Respawned(s.teacher.value)))
    decreases |eggs|
  {
    if |eggs| > 0 {
      var front := eggs[..|eggs| - 1];
      var last := eggs[|eggs| - 1];
      HandleHitsEffect(s, front);
      var m := HandleHits(s, front);
      WithoutMembers(m.projectiles, last.id);
      assert eggs == front + [last];
      assert HitEvents(eggs) == HitEvents(front) + [HitEvent(last.x, last.y, last.id)];
      RespawnedTwice(s.teacher.value);
    }
  }

  /** respawn is idempotent: a second hit in the same tick leaves the teacher as the first did. */
  lemma RespawnedTwice(t: Teachers.TeacherState)
    ensures Teachers.Respawned(Teachers.Respawned(t)) == Teachers.Respawned(t)
  {
  }

  /**
   * checkCollisions: every egg reported against the teacher as it stood
   * before the tick's respawns is gone afterwards, each with its hit event.
   */
  lemma HitEggsAreRemoved(sqrt: real -> real, s: SimState)
    requires IsSqrt(sqrt) && s.teacher.Some?
    ensures var hits := HitStates(sqrt, s.projectiles, s.teacher.value);
            var r := Collided(sqrt, s);
            r.events == s.events + HitEvents(hits) &&
            (forall e :: e in r.projectiles <==> e in s.projectiles && forall h :: h in hits ==> h.id != e.id)
  {
    var hits := HitStates(sqrt, s.projectiles, s.teacher.value);
    HandleHitsEffect(s, hits);
  }

  // ------------------------------------------------------------ removal and splats

  /** The eggs that landed this tick. */
  function LandedStates(ps: seq<ProjectileState>): seq<ProjectileState>
    decreases |ps|
  {
    if |ps| == 0 then []
    else (if !ps[0].isActive && ps[0].hasLanded then [ps[0]] else []) + LandedStates(ps[1..])
  }

  /**
   * The removal loop emits one splat per landed egg, at the egg's
   * position; every splat comes from a landed egg.
   */
  lemma {:induction false} SplatsOfLanded(ps: seq<ProjectileState>)
    ensures |Splats(ps)| == |LandedStates(ps)|
    ensures forall e :: e in LandedStates(ps) <==> e in ps && !e.isActive && e.hasLanded
    ensures forall v :: v in Splats(ps) <==> exists e :: e in LandedStates(ps) && v == SplatEvent(e.x, e.y)
    decreases |ps|
  {
    if |ps| > 0 {
      SplatsOfLanded(ps[1..]);
      assert ps == [ps[0]] + ps[1..];
      if !ps[0].isActive && ps[0].hasLanded {
        assert ps[0] in LandedStates(ps);
      }
    }
  }

  /** Only eggs in flight remain after the removal loop, and every one of them does. */
  lemma ClearedKeepsTheFlying(s: SimState)
    ensures forall e :: e in Cleared(s).projectiles <==> e in s.projectiles && e.isActive
    ensures Cleared(s).events == s.events + Splats(s.projectiles)
  {
    ActiveMembers(s.projectiles);
  }

  // ------------------------------------------------------------ events

  /** The number of gameover events in a stretch of the buffer. */
  function GameOvers(events: seq<Event>): nat
    decreases |events|
  {
    if |events| == 0 then 0
    else (if events[0].GameOverEvent? then 1 else 0) + GameOvers(events[1..])
  }

  lemma {:induction false} GameOversAppend(a: seq<Event>, b: seq<Event>)
    ensures GameOvers(a + b) == GameOvers(a) + GameOvers(b)
    decreases |a|
  {
    if |a| > 0 {
      GameOversAppend(a[1..], b);
      assert (a + b)[1..] == a[1..] + b;
    } else {
      assert a + b == b;
    }
  }

  predicate NoGameOver(events: seq<Event>) {
    forall e :: e in events ==> !e.GameOverEvent?
  }

  lemma {:induction false} NoGameOverCounts(events: seq<Event>)
    requires NoGameOver(events)
    ensures GameOvers(events) == 0
    decreases |events|
  {
    if |events| > 0 {
      assert events[0] in events;
      assert forall e :: e in events[1..] ==> e in events;
      NoGameOverCounts(events[1..]);
    }
  }

  /** The buffer got longer by entries none of which is a gameover. */
  predicate GrewWithoutGameOver(before: seq<Event>, after: seq<Event>) {
    before <= after && NoGameOver(after[|before|..])
  }

  lemma GrewTwice(a: seq<Event>, b: seq<Event>, c: seq<Event>)
    requires GrewWithoutGameOver(a, b) && GrewWithoutGameOver(b, c)
    ensures GrewWithoutGameOver(a, c)
  {
    assert c[|a|..] == b[|a|..] + c[|b|..];
  }

  lemma GrewKeepsCount(a: seq<Event>, b: seq<Event>)
    requires GrewWithoutGameOver(a, b)
    ensures GameOvers(b) == GameOvers(a)
  {
    assert b == a + b[|a|..];
    GameOversAppend(a, b[|a|..]);
    NoGameOverCounts(b[|a|..]);
  }

  lemma PupilAddsNoGameOver(sqrt: real -> real, s: SimState, dt: real, input: Pupils.PupilInput,
                            obstacles: seq<Obstacle>)
    requires IsSqrt(sqrt)
    ensures GrewWithoutGameOver(s.events, PupilActed(sqrt, s, dt, input, obstacles).events)
  {
    var a := PupilActed(sqrt, s, dt, input, obstacles);
    assert a.events[|s.events|..] == [] || a.events[|s.events|..] == [ThrowEvent(s.nextId)];
  }

  lemma HitsAddNoGameOver(sqrt: real -> real, s: SimState)
    requires IsSqrt(sqrt)
    ensures GrewWithoutGameOver(s.events, Collided(sqrt, s).events)
  {
    if s.teacher.Some? {
      var hits := HitStates(sqrt, s.projectiles, s.teacher.value);
      HandleHitsEffect(s, hits);
      assert Collided(sqrt, s).events[|s.events|..] == HitEvents(hits);
    }
  }

  lemma SplatsAddNoGameOver(s: SimState)
    ensures GrewWithoutGameOver(s.events, Cleared(s).events)
  {
    SplatsOfLanded(s.projectiles);
    assert Cleared(s).events[|s.events|..] == Splats(s.projectiles);
  }

  /** The part of update after the teacher appends to the buffer and adds no gameover. */
  lemma RestAddsNoGameOver(sqrt: real -> real, s: SimState, dt: real, input: Pupils.PupilInput,
                           obstacles: seq<Obstacle>)
    requires IsSqrt(sqrt) && 0.0 < dt && Sound(s)
    ensures var r := Rest(sqrt, s, dt, input, obstacles);
            s.events <= r.events && GameOvers(r.events) == GameOvers(s.events)
  {
    var a := PupilActed(sqrt, s, dt, input, obstacles);
    PupilActedKeepsSound(sqrt, s, dt, input, obstacles);
    PupilAddsNoGameOver(sqrt, s, dt, input, obstacles);
    var f := Flown(a, dt);
    var c := Collided(sqrt, f);
    HitsAddNoGameOver(sqrt, f);
    SplatsAddNoGameOver(c);
    GrewTwice(s.events, a.events, c.events);
    GrewTwice(s.events, c.events, Cleared(c).events);
    GrewKeepsCount(s.events, Cleared(c).events);
  }

  /**
   * The buffer only grows during an update, and an update adds a gameover
   * event exactly when it ends the round.
   */
  lemma TickEvents(sqrt: real -> real, s: SimState, dt: real, teacherInput: Teachers.TeacherInput,
                   pupilInput: Pupils.PupilInput, obstacles: seq<Obstacle>)
    requires IsSqrt(sqrt) && 0.0 < dt && Sound(s)
    ensures var r := Tick(sqrt, s, dt, teacherInput, pupilInput, obstacles);
            s.events <= r.events &&
            GameOvers(r.events) == GameOvers(s.events) + (if s.state == Playing && r.state == GameOver then 1 else 0)
  {
    if s.state == Playing {
      var c := Clocked(s, dt);
      if c.timeRemaining <= 0.0 {
        GameOversAppend(s.events, [GameOverEvent(PupilWins)]);
      } else {
        var m := TeacherMoved(sqrt, c, dt, teacherInput, obstacles);
        TeacherMovedKeepsSound(sqrt, c, dt, teacherInput, obstacles);
        if m.teacher.Some? && Teachers.ReachedGoal(m.teacher.value) {
          GameOversAppend(s.events, [GameOverEvent(TeacherWins)]);
        } else {
          RestAddsNoGameOver(sqrt, m, dt, pupilInput, obstacles);
        }
      }
    }
  }

  /**
   * The buffer holds no gameover while the round runs and at most one once
   * it is over: a round yields at most one.
   */
  predicate OneGameOverPerRound(s: SimState) {
    GameOvers(s.events) <= (if s.state == GameOver then 1 else 0)
  }

  /** startGame opens a round with no gameover; update and serialize keep it at most one. */
  lemma GameOverAtMostOnce(sqrt: real -> real, s: SimState, dt: real, teacherInput: Teachers.TeacherInput,
                           pupilInput: Pupils.PupilInput, obstacles: seq<Obstacle>)
    requires IsSqrt(sqrt) && 0.0 < dt && Sound(s) && OneGameOverPerRound(s)
    ensures OneGameOverPerRound(Started(s))
    ensures OneGameOverPerRound(Tick(sqrt, s, dt, teacherInput, pupilInput, obstacles))
    ensures OneGameOverPerRound(Serialized(s).1)
  {
    TickEvents(sqrt, s, dt, teacherInput, pupilInput, obstacles);
    var r := Tick(sqrt, s, dt, teacherInput, pupilInput, obstacles);
    if s.state != Playing {
      assert r == s;
    } else if r.state != GameOver {
      assert GameOvers(r.events) == GameOvers(s.events);
    }
  }

  // ------------------------------------------------------------ serialize

  /**
   * serialize hands out the buffer and empties it: an event a later
   * serialize reports was added after the earlier one.
   */
  lemma EachEventSerializedOnce(s: SimState, added: seq<Event>)
    ensures var after := Serialized(s).1;
            Serialized(s).0.events == s.events &&
            Serialized(after.(events := after.events + added)).0.events == added
  {
  }
}
