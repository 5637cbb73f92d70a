/**
 * The server-authoritative match (src/shared/simulation.js, GameSimulation).
 * One tick runs, in order: the clock (time up ends the round for the
 * pupil), the teacher (reaching the goal ends it for the teacher), the
 * pupil (a throw spawns an egg), every egg's flight, hit handling against
 * the teacher as it stood before any respawn of this tick, and the removal
 * of every egg no longer in flight, with a splat for each one that landed.
 * Events collect in a buffer that serialize hands out and empties.
 *
 * The value model (SimState and the phase functions) carries the
 * properties; the class GameSimulation holds the source's fields and each
 * of its methods is proved to perform the matching phase function.
 */
module Simulation {
  import opened Wrappers
  import opened Config
  import opened Geometry
  import opened Obstacles
  import opened Projectiles
  import opened Collision
  import Teachers
  import Pupils

  /** The entries of the events buffer. */
  datatype Event =
    | ThrowEvent(id: nat)
    | SplatEvent(x: real, y: real)
    | HitEvent(x: real, y: real, eggId: nat)
    | GameOverEvent(winner: Winner)

  /**
   * The fields of a GameSimulation; a teacher or pupil of None is the
   * source's null before the first startGame.  nextId is the shared
   * projectile id counter.
   */
  datatype SimState = SimState(
    state: GameState, winner: Winner, timeRemaining: real,
    teacher: Option<Teachers.TeacherState>, pupil: Option<Pupils.PupilState>,
    projectiles: seq<ProjectileState>, tick: nat, events: seq<Event>, nextId: nat)

  // ------------------------------------------------------------ invariant

  /** No two eggs share an id. */
  predicate DistinctIds(ps: seq<ProjectileState>) {
    forall i, j :: 0 <= i < |ps| && 0 <= j < |ps| && ps[i].id == ps[j].id ==> i == j
  }

  /**
   * What holds between the phases of a tick: the clock is not negative,
   * the entities keep their own invariants, and every egg is well formed,
   * carries an id the counter has already handed out, and is the only one
   * with that id.
   */
  predicate Sound(s: SimState) {
    0.0 <= s.timeRemaining &&
    (s.teacher.Some? ==> Teachers.TeacherInvariant(s.teacher.value)) &&
    (s.pupil.Some? ==> Pupils.PupilInvariant(s.pupil.value)) &&
    (forall e :: e in s.projectiles ==> WellFormed(e) && e.id < s.nextId) &&
    DistinctIds(s.projectiles)
  }

  predicate AllActive(ps: seq<ProjectileState>) {
    forall e :: e in ps ==> e.isActive
  }

  /**
   * What holds between ticks: in addition, a round in play has its teacher
   * and its pupil, and only eggs still in flight are kept.
   */
  predicate SimInvariant(s: SimState) {
    Sound(s) && AllActive(s.projectiles) &&
    (s.state == Playing ==> s.teacher.Some? && s.pupil.Some?)
  }

  // ------------------------------------------------------------ operations

  /** The constructor: a lobby with no entities and no eggs. */
  function Created(nextId: nat): SimState {
    SimState(Lobby, NoWinner, MATCH_DURATION, None, None, [], 0, [], nextId)
  }

  /** startGame: a fresh teacher and pupil, a full clock, no eggs, no events. */
  function Started(s: SimState): SimState {
    SimState(Playing, NoWinner, MATCH_DURATION, Some(Teachers.Initial), Some(Pupils.Initial),
             [], 0, [], s.nextId)
  }

  /** endGame(winner) */
  function Ended(s: SimState, winner: Winner): SimState {
    s.(state := GameOver, winner := winner, events := s.events + [GameOverEvent(winner)])
  }

  /** The clock part of update: the tick count and the remaining time. */
  function Clocked(s: SimState, dt: real): SimState {
    s.(tick := s.tick + 1, timeRemaining := s.timeRemaining - dt)
  }

  lemma ClockedKeepsSound(s: SimState, dt: real)
    requires Sound(s) && 0.0 < Clocked(s, dt).timeRemaining
    ensures Sound(Clocked(s, dt))
  {
  }

  /** The teacher part of update. */
  function TeacherMoved(sqrt: real -> real, s: SimState, dt: real, input: Teachers.TeacherInput,
                        obstacles: seq<Obstacle>): (r: SimState)
    requires IsSqrt(sqrt)
    ensures r == s.(teacher := r.teacher) && (r.teacher.Some? <==> s.teacher.Some?)
  {
    if s.teacher.None? then s
    else s.(teacher := Some(Teachers.Step(sqrt, s.teacher.value, dt, input, obstacles)))
  }

  /** The pupil part of update: a throw launches an egg with the next id and logs it. */
  function PupilActed(sqrt: real -> real, s: SimState, dt: real, input: Pupils.PupilInput,
                      obstacles: seq<Obstacle>): (r: SimState)
    requires IsSqrt(sqrt)
    ensures r == s.(pupil := r.pupil, projectiles := r.projectiles, events := r.events, nextId := r.nextId)
    ensures r.pupil.Some? <==> s.pupil.Some?
  {
    if s.pupil.None? then s
    else
      var r := Pupils.Step(s.pupil.value, dt, input, obstacles);
      if r.1.None? then s.(pupil := Some(r.0))
      else Spawned(sqrt, s.(pupil := Some(r.0)), r.1.value)
  }

  /** A throw: the egg is launched with the next id, appended and logged. */
  function Spawned(sqrt: real -> real, s: SimState, t: Pupils.Throw): SimState
    requires IsSqrt(sqrt)
  {
    var egg := Launch(sqrt, s.nextId, t.startX, t.startY, t.targetX, t.targetY);
    s.(projectiles := s.projectiles + [egg], events := s.events + [ThrowEvent(egg.id)],
       nextId := s.nextId + 1)
  }

  /** Every egg's update, in list order. */
  function AdvanceAll(ps: seq<ProjectileState>, dt: real): (r: seq<ProjectileState>)
    requires 0.0 < dt && forall e :: e in ps ==> 0.0 <= e.flightDuration
    ensures |r| == |ps| && forall i :: 0 <= i < |ps| ==> r[i] == Advance(ps[i], dt)
  {
    seq(|ps|, i requires 0 <= i < |ps| => Advance(ps[i], dt))
  }

  function Flown(s: SimState, dt: real): SimState
    requires 0.0 < dt && forall e :: e in s.projectiles ==> 0.0 <= e.flightDuration
  {
    s.(projectiles := AdvanceAll(s.projectiles, dt))
  }

  /** The eggs other than the one with the given id, in order. */
  function Without(ps: seq<ProjectileState>, id: nat): seq<ProjectileState>
    decreases |ps|
  {
    if |ps| == 0 then []
    else (if ps[0].id == id then [] else [ps[0]]) + Without(ps[1..], id)
  }

  /** handleEggHit: a hit event, the teacher's respawn, and the egg's removal. */
  function HandleHit(s: SimState, egg: ProjectileState): (r: SimState)
    requires s.teacher.Some?
    ensures r.teacher.Some?
  {
    s.(events := s.events + [HitEvent(egg.x, egg.y, egg.id)],
       teacher := Some(Teachers.Respawned(s.teacher.value)),
       projectiles := Without(s.projectiles, egg.id))
  }

  /** handleEggHit for each reported egg, in order. */
  function HandleHits(s: SimState, eggs: seq<ProjectileState>): (r: SimState)
    requires s.teacher.Some?
    ensures r.teacher.Some?
    ensures r == s.(teacher := r.teacher, projectiles := r.projectiles, events := r.events)
    decreases |eggs|
  {
    if |eggs| == 0 then s
    else HandleHit(HandleHits(s, eggs[..|eggs| - 1]), eggs[|eggs| - 1])
  }

  lemma HandleHitsSnoc(s: SimState, eggs: seq<ProjectileState>, i: nat)
    requires s.teacher.Some? && i < |eggs|
    ensures HandleHits(s, eggs[..i + 1]) == HandleHit(HandleHits(s, eggs[..i]), eggs[i])
  {
    assert eggs[..i + 1][..i] == eggs[..i];
  }

  /** checkCollisions: the hits are found first, all against the same teacher. */
  function Collided(sqrt: real -> real, s: SimState): (r: SimState)
    requires IsSqrt(sqrt)
    ensures r == s.(teacher := r.teacher, projectiles := r.projectiles, events := r.events)
    ensures r.teacher.Some? <==> s.teacher.Some?
  {
    if s.teacher.None? then s
    else HandleHits(s, HitStates(sqrt, s.projectiles, s.teacher.value))
  }

  /** The eggs still in flight, in order. */
  function ActiveStates(ps: seq<ProjectileState>): seq<ProjectileState>
    decreases |ps|
  {
    if |ps| == 0 then []
    else (if ps[0].isActive then [ps[0]] else []) + ActiveStates(ps[1..])
  }

  /** The splat events of the removal loop; it runs from the back of the list. */
  function Splats(ps: seq<ProjectileState>): seq<Event>
    decreases |ps|
  {
    if |ps| == 0 then []
    else Splats(ps[1..]) + (if !ps[0].isActive && ps[0].hasLanded then [SplatEvent(ps[0].x, ps[0].y)] else [])
  }

  /** The removal loop at the end of update. */
  function Cleared(s: SimState): SimState {
    s.(projectiles := ActiveStates(s.projectiles), events := s.events + Splats(s.projectiles))
  }

  /**
   * The part of update after the teacher: pupil, flights, hits, removal.
   * It leaves the round's status, clock and tick count alone.
   */
  function Rest(sqrt: real -> real, s: SimState, dt: real, input: Pupils.PupilInput,
                obstacles: seq<Obstacle>): (r: SimState)
    requires IsSqrt(sqrt) && 0.0 < dt && Sound(s)
    ensures r.state == s.state && r.winner == s.winner && r.timeRemaining == s.timeRemaining
    ensures r.tick == s.tick && (r.teacher.Some? <==> s.teacher.Some?) && (r.pupil.Some? <==> s.pupil.Some?)
  {
    var a := PupilActed(sqrt, s, dt, input, obstacles);
    PupilActedKeepsSound(sqrt, s, dt, input, obstacles);
    Cleared(Collided(sqrt, Flown(a, dt)))
  }

  /** update after the teacher's move: reaching the goal ends the round for the teacher. */
  function Moving(sqrt: real -> real, c: SimState, dt: real, teacherInput: Teachers.TeacherInput,
                  pupilInput: Pupils.PupilInput, obstacles: seq<Obstacle>): SimState
    requires IsSqrt(sqrt) && 0.0 < dt && Sound(c)
  {
    var m := TeacherMoved(sqrt, c, dt, teacherInput, obstacles);
    TeacherMovedKeepsSound(sqrt, c, dt, teacherInput, obstacles);
    if m.teacher.Some? && Teachers.ReachedGoal(m.teacher.value) then Ended(m, TeacherWins)
    else Rest(sqrt, m, dt, pupilInput, obstacles)
  }

  /** update of a round in play: running out of time ends it for the pupil. */
  function Running(sqrt: real -> real, s: SimState, dt: real, teacherInput: Teachers.TeacherInput,
                   pupilInput: Pupils.PupilInput, obstacles: seq<Obstacle>): SimState
    requires IsSqrt(sqrt) && 0.0 < dt && Sound(s)
  {
    var c := Clocked(s, dt);
    if c.timeRemaining <= 0.0 then Ended(c.(timeRemaining := 0.0), PupilWins)
    else Moving(sqrt, c, dt, teacherInput, pupilInput, obstacles)
  }

  /** update(deltaTime, teacherInputs, pupilInputs): nothing happens unless a round is in play. */
  function Tick(sqrt: real -> real, s: SimState, dt: real, teacherInput: Teachers.TeacherInput,
                pupilInput: Pupils.PupilInput, obstacles: seq<Obstacle>): SimState
    requires IsSqrt(sqrt) && 0.0 < dt && Sound(s)
  {
    if s.state != Playing then s
    else Running(sqrt, s, dt, teacherInput, pupilInput, obstacles)
  }

  // ------------------------------------------------------------ serialize

  /** The wire form of the teacher (the source rounds the reals; this model does not). */
  datatype TeacherView = TeacherView(
    x: real, y: real, vx: real, vy: real, invuln: bool, invulnT: real, hidden: bool,
    sprint: bool, sprintT: real, sprintCD: real, sprintAvail: bool, facing: bool)

  datatype PupilView = PupilView(
    eggs: int, maxEggs: int, cooldown: real, canThrow: bool, refilling: bool,
    refillT: real, crossX: real, crossY: real)

  datatype EggView = EggView(
    id: nat, x: real, y: real, sx: real, sy: real, tx: real, ty: real,
    progress: real, active: bool)

  /** The 'state' message serialize builds. */
  datatype Snapshot = Snapshot(
    tick: nat, gameState: GameState, winner: Winner, time: real,
    teacher: Option<TeacherView>, pupil: Option<PupilView>,
    projectiles: seq<EggView>, events: seq<Event>)

  function ViewOfTeacher(t: Teachers.TeacherState): TeacherView {
    TeacherView(t.x, t.y, t.velocityX, t.velocityY, t.isInvulnerable, t.invulnerabilityTimer,
                t.isHidden, t.isSprinting, t.sprintTimer, t.sprintCooldownTimer,
                t.sprintAvailable, t.facingRight)
  }

  function ViewOfPupil(p: Pupils.PupilState): PupilView {
    PupilView(p.eggCount, p.maxEggs, p.throwCooldown, p.canThrow, p.isRefilling,
              p.refillTimer, p.crosshairX, p.crosshairY)
  }

  function ViewOfEgg(e: ProjectileState): EggView {
    EggView(e.id, e.x, e.y, e.startX, e.startY, e.targetX, e.targetY, e.progress, e.isActive)
  }

  function ViewsOfEggs(ps: seq<ProjectileState>): (r: seq<EggView>)
    ensures |r| == |ps| && forall i :: 0 <= i < |ps| ==> r[i] == ViewOfEgg(ps[i])
  {
    seq(|ps|, i requires 0 <= i < |ps| => ViewOfEgg(ps[i]))
  }

  /** serialize: the snapshot, and the state with its events buffer emptied. */
  function Serialized(s: SimState): (r: (Snapshot, SimState))
    ensures r.0.events == s.events && r.1 == s.(events := [])
    ensures r.0.tick == s.tick && r.0.gameState == s.state && r.0.winner == s.winner
    ensures r.0.time == s.timeRemaining && |r.0.projectiles| == |s.projectiles|
    ensures forall i :: 0 <= i < |s.projectiles| ==> r.0.projectiles[i] == ViewOfEgg(s.projectiles[i])
    ensures r.0.teacher.Some? <==> s.teacher.Some?
    ensures s.teacher.Some? ==> r.0.teacher == Some(ViewOfTeacher(s.teacher.value))
    ensures r.0.pupil.Some? <==> s.pupil.Some?
    ensures s.pupil.Some? ==> r.0.pupil == Some(ViewOfPupil(s.pupil.value))
  {
    var teacher := if s.teacher.Some? then Some(ViewOfTeacher(s.teacher.value)) else None;
    var pupil := if s.pupil.Some? then Some(ViewOfPupil(s.pupil.value)) else None;
    (Snapshot(s.tick, s.state, s.winner, s.timeRemaining, teacher, pupil,
              ViewsOfEggs(s.projectiles), s.events),
     s.(events := []))
  }

  // ------------------------------------------------------------ lemmas: soundness

  lemma TeacherMovedKeepsSound(sqrt: real -> real, s: SimState, dt: real, input: Teachers.TeacherInput,
                               obstacles: seq<Obstacle>)
    requires IsSqrt(sqrt) && Sound(s)
    ensures Sound(TeacherMoved(sqrt, s, dt, input, obstacles))
  {
    if s.teacher.Some? {
      Teachers.StepKeepsInvariant(sqrt, s.teacher.value, dt, input, obstacles);
    }
  }

  lemma PupilActedKeepsSound(sqrt: real -> real, s: SimState, dt: real, input: Pupils.PupilInput,
                             obstacles: seq<Obstacle>)
    requires IsSqrt(sqrt) && Sound(s)
    ensures Sound(PupilActed(sqrt, s, dt, input, obstacles))
  {
    if s.pupil.Some? {
      Pupils.StepKeepsInvariant(s.pupil.value, dt, input, obstacles);
      var a := PupilActed(sqrt, s, dt, input, obstacles);
      if a.projectiles != s.projectiles {
        var n := |s.projectiles|;
        var egg := a.projectiles[n];
        assert a.projectiles == s.projectiles + [egg] && egg.id == s.nextId;
        forall k | 0 <= k < n
          ensures a.projectiles[k].id < egg.id
        {
          assert s.projectiles[k] in s.projectiles;
        }
        DistinctSnoc(s.projectiles, egg);
      }
    }
  }

  /** Appending an egg whose id is above every other keeps the ids distinct. */
  lemma DistinctSnoc(ps: seq<ProjectileState>, egg: ProjectileState)
    requires DistinctIds(ps) && forall k :: 0 <= k < |ps| ==> ps[k].id < egg.id
    ensures DistinctIds(ps + [egg])
  {
    var r := ps + [egg];
    forall i, j | 0 <= i < |r| && 0 <= j < |r| && r[i].id == r[j].id
      ensures i == j
    {
      if i < |ps| && j < |ps| {
        assert r[i] == ps[i] && r[j] == ps[j];
      }
    }
  }

  lemma FlownKeepsSound(s: SimState, dt: real)
    requires Sound(s) && 0.0 < dt
    ensures Sound(Flown(s, dt))
    ensures |Flown(s, dt).projectiles| == |s.projectiles|
  {
    var r := Flown(s, dt).projectiles;
    forall e | e in r
      ensures WellFormed(e) && e.id < s.nextId
    {
      var i :| 0 <= i < |r| && r[i] == e;
      assert s.projectiles[i] in s.projectiles;
      AdvanceKeepsWellFormed(s.projectiles[i], dt);
    }
  }

  lemma {:induction false} WithoutMembers(ps: seq<ProjectileState>, id: nat)
    ensures forall e :: e in Without(ps, id) <==> e in ps && e.id != id
    decreases |ps|
  {
    if |ps| > 0 {
      WithoutMembers(ps[1..], id);
      assert ps == [ps[0]] + ps[1..];
    }
  }

  /** An egg followed by others of different ids keeps the ids distinct. */
  lemma DistinctCons(e: ProjectileState, rest: seq<ProjectileState>)
    requires DistinctIds(rest) && forall x :: x in rest ==> x.id != e.id
    ensures DistinctIds([e] + rest)
  {
    var ps := [e] + rest;
    forall k | 0 < k < |ps|
      ensures ps[k].id != e.id
    {
      assert ps[k] in rest;
    }
    forall i, j | 0 <= i < |ps| && 0 <= j < |ps| && ps[i].id == ps[j].id
      ensures i == j
    {
      if i > 0 && j > 0 {
        assert ps[i] == rest[i - 1] && ps[j] == rest[j - 1];
      }
    }
  }

  lemma DistinctTail(ps: seq<ProjectileState>)
    requires DistinctIds(ps) && |ps| > 0
    ensures DistinctIds(ps[1..]) && forall x :: x in ps[1..] ==> x.id != ps[0].id
  {
    var rest := ps[1..];
    forall i, j | 0 <= i < |rest| && 0 <= j < |rest| && rest[i].id == rest[j].id
      ensures i == j
    {
      assert ps[i + 1].id == ps[j + 1].id;
    }
    forall x | x in rest
      ensures x.id != ps[0].id
    {
      var k :| 0 <= k < |rest| && rest[k] == x;
      assert ps[k + 1] == x;
    }
  }

  lemma {:induction false} WithoutKeepsDistinct(ps: seq<ProjectileState>, id: nat)
    requires DistinctIds(ps)
    ensures DistinctIds(Without(ps, id))
    decreases |ps|
  {
    if |ps| > 0 {
      DistinctTail(ps);
      WithoutKeepsDistinct(ps[1..], id);
      WithoutMembers(ps[1..], id);
      if ps[0].id != id {
        DistinctCons(ps[0], Without(ps[1..], id));
      } else {
        assert Without(ps, id) == Without(ps[1..], id);
      }
    }
  }

  lemma HandleHitKeepsSound(s: SimState, egg: ProjectileState)
    requires Sound(s) && s.teacher.Some?
    ensures Sound(HandleHit(s, egg))
  {
    Teachers.RespawnKeepsInvariant(s.teacher.value);
    WithoutMembers(s.projectiles, egg.id);
    WithoutKeepsDistinct(s.projectiles, egg.id);
  }

  lemma {:induction false} HandleHitsKeepsSound(s: SimState, eggs: seq<ProjectileState>)
    requires Sound(s) && s.teacher.Some?
    ensures Sound(HandleHits(s, eggs))
    decreases |eggs|
  {
    if |eggs| > 0 {
      HandleHitsKeepsSound(s, eggs[..|eggs| - 1]);
      HandleHitKeepsSound(HandleHits(s, eggs[..|eggs| - 1]), eggs[|eggs| - 1]);
    }
  }

  lemma {:induction false} ActiveMembers(ps: seq<ProjectileState>)
    ensures forall e :: e in ActiveStates(ps) <==> e in ps && e.isActive
    decreases |ps|
  {
    if |ps| > 0 {
      ActiveMembers(ps[1..]);
      assert ps == [ps[0]] + ps[1..];
    }
  }

  lemma {:induction false} ActiveKeepsDistinct(ps: seq<ProjectileState>)
    requires DistinctIds(ps)
    ensures DistinctIds(ActiveStates(ps))
    decreases |ps|
  {
    if |ps| > 0 {
      DistinctTail(ps);
      ActiveKeepsDistinct(ps[1..]);
      ActiveMembers(ps[1..]);
      if ps[0].isActive {
        DistinctCons(ps[0], ActiveStates(ps[1..]));
      } else {
        assert ActiveStates(ps) == ActiveStates(ps[1..]);
      }
    }
  }

  lemma ClearedIsSound(s: SimState)
    requires Sound(s)
    ensures Sound(Cleared(s)) && AllActive(Cleared(s).projectiles)
  {
    ActiveMembers(s.projectiles);
    ActiveKeepsDistinct(s.projectiles);
  }

  lemma CollidedKeepsSound(sqrt: real -> real, s: SimState)
    requires IsSqrt(sqrt) && Sound(s)
    ensures Sound(Collided(sqrt, s))
  {
    if s.teacher.Some? {
      HandleHitsKeepsSound(s, HitStates(sqrt, s.projectiles, s.teacher.value));
    }
  }

  /** After the removal loop the state is sound and only eggs in flight remain. */
  lemma RestIsValid(sqrt: real -> real, s: SimState, dt: real, input: Pupils.PupilInput,
                    obstacles: seq<Obstacle>)
    requires IsSqrt(sqrt) && 0.0 < dt && Sound(s)
    ensures Sound(Rest(sqrt, s, dt, input, obstacles))
    ensures AllActive(Rest(sqrt, s, dt, input, obstacles).projectiles)
  {
    var a := PupilActed(sqrt, s, dt, input, obstacles);
    PupilActedKeepsSound(sqrt, s, dt, input, obstacles);
    FlownKeepsSound(a, dt);
    CollidedKeepsSound(sqrt, Flown(a, dt));
    ClearedIsSound(Collided(sqrt, Flown(a, dt)));
  }

  /** Every tick keeps the invariant: in particular only eggs in flight remain after it. */
  lemma TickKeepsInvariant(sqrt: real -> real, s: SimState, dt: real, teacherInput: Teachers.TeacherInput,
                           pupilInput: Pupils.PupilInput, obstacles: seq<Obstacle>)
    requires IsSqrt(sqrt) && 0.0 < dt && SimInvariant(s)
    ensures SimInvariant(Tick(sqrt, s, dt, teacherInput, pupilInput, obstacles))
  {
    if s.state == Playing {
      var c := Clocked(s, dt);
      if c.timeRemaining > 0.0 {
        var m := TeacherMoved(sqrt, c, dt, teacherInput, obstacles);
        TeacherMovedKeepsSound(sqrt, c, dt, teacherInput, obstacles);
        if !(m.teacher.Some? && Teachers.ReachedGoal(m.teacher.value)) {
          RestIsValid(sqrt, m, dt, pupilInput, obstacles);
        }
      }
    }
  }

  /** A new simulation and a started round satisfy the invariant. */
  lemma CreatedAndStartedAreValid(nextId: nat, s: SimState)
    ensures SimInvariant(Created(nextId)) && SimInvariant(Started(s))
    ensures Started(s).state == Playing && Started(s).nextId == s.nextId
  {
    Teachers.InitialIsValid();
    Pupils.InitialIsValid();
  }

  // ------------------------------------------------------------ the class

  /**
   * The index Array.prototype.indexOf finds: the first position holding the
   * egg, or -1.
   */
  function IndexOf(ps: seq<Projectile>, egg: Projectile): (i: int)
    ensures -1 <= i < |ps|
    ensures 0 <= i ==> ps[i] == egg && egg !in ps[..i]
    ensures i == -1 <==> egg !in ps
    decreases |ps|
  {
    if |ps| == 0 then -1
    else if ps[0] == egg then 0
    else
      var k := IndexOf(ps[1..], egg);
      assert ps == [ps[0]] + ps[1..];
      if k == -1 then -1
      else
        assert ps[..k + 1] == [ps[0]] + ps[1..][..k];
        k + 1
  }

  /** The list after the splice of handleEggHit. */
  function Removed(ps: seq<Projectile>, egg: Projectile): seq<Projectile> {
    var index := IndexOf(ps, egg);
    if index > -1 then ps[..index] + ps[index + 1..] else ps
  }

  class GameSimulation {
    var state: GameState
    var winner: Winner
    var timeRemaining: real
    var teacher: Teachers.Teacher?
    var pupil: Pupils.Pupil?
    var projectiles: seq<Projectile>
    const obstacles: seq<Obstacle>
    var tick: nat
    var events: seq<Event>
    /** The module-level id counter of projectile-sim.js. */
    const ids: IdCounter

    function State(): SimState
      reads this, teacher, pupil, ids, projectiles
    {
      SimState(state, winner, timeRemaining,
               if teacher == null then None else Some(teacher.State()),
               if pupil == null then None else Some(pupil.State()),
               States(projectiles), tick, events, ids.next)
    }

    predicate Valid()
      reads this, teacher, pupil, ids, projectiles
    {
      SimInvariant(State())
    }

    constructor (ids: IdCounter)
      ensures State() == Created(ids.next) && obstacles == Layout() && this.ids == ids
      ensures Valid()
    {
      state := Lobby;
      winner := NoWinner;
      timeRemaining := MATCH_DURATION;
      teacher := null;
      pupil := null;
      projectiles := [];
      var layout := CreateObstacleLayout();
      obstacles := layout;
      tick := 0;
      events := [];
      this.ids := ids;
      new;
      CreatedAndStartedAreValid(ids.next, State());
    }

    method StartGame()
      modifies this
      ensures State() == Started(old(State())) && Valid()
      ensures fresh(teacher) && fresh(pupil)
    {
      state := Playing;
      winner := NoWinner;
      timeRemaining := MATCH_DURATION;
      teacher := new Teachers.Teacher();
      pupil := new Pupils.Pupil();
      projectiles := [];
      tick := 0;
      events := [];
      CreatedAndStartedAreValid(ids.next, old(State()));
    }

    method EndGame(winner: Winner)
      modifies this
      ensures State() == Ended(old(State()), winner)
      ensures teacher == old(teacher) && pupil == old(pupil) && projectiles == old(projectiles)
    {
      state := GameOver;
      this.winner := winner;
      events := events + [GameOverEvent(winner)];
    }

    method Update(sqrt: real -> real, dt: real, teacherInput: Teachers.TeacherInput,
                  pupilInput: Pupils.PupilInput)
      requires IsSqrt(sqrt) && 0.0 < dt && Valid()
      modifies this, teacher, pupil, ids, projectiles
      ensures State() == Tick(sqrt, old(State()), dt, teacherInput, pupilInput, obstacles)
      ensures Valid()
      ensures teacher == old(teacher) && pupil == old(pupil)
    {
      TickKeepsInvariant(sqrt, State(), dt, teacherInput, pupilInput, obstacles);
      if state != Playing {
        return;
      }
      RunClock(sqrt, dt, teacherInput, pupilInput);
    }

    /** The clock part of update; time up ends the round for the pupil. */
    method RunClock(sqrt: real -> real, dt: real, teacherInput: Teachers.TeacherInput,
                    pupilInput: Pupils.PupilInput)
      requires IsSqrt(sqrt) && 0.0 < dt && Sound(State())
      modifies this, teacher, pupil, ids, projectiles
      ensures State() == Running(sqrt, old(State()), dt, teacherInput, pupilInput, obstacles)
      ensures teacher == old(teacher) && pupil == old(pupil)
    {
      ghost var s0 := State();
      AdvanceClock(dt);
      if timeRemaining <= 0.0 {
        TimeUp();
        return;
      }
      ClockedKeepsSound(s0, dt);
      MoveTeacher(sqrt, dt, teacherInput, pupilInput);
    }

    /** this.tick++ and the countdown of the remaining time. */
    method AdvanceClock(dt: real)
      modifies this
      ensures State() == Clocked(old(State()), dt)
      ensures teacher == old(teacher) && pupil == old(pupil) && projectiles == old(projectiles)
    {
      tick := tick + 1;
      timeRemaining := timeRemaining - dt;
    }

    /** Time up: the clock is clamped to zero and the pupil wins. */
    method TimeUp()
      modifies this
      ensures State() == Ended(old(State()).(timeRemaining := 0.0), PupilWins)
      ensures teacher == old(teacher) && pupil == old(pupil) && projectiles == old(projectiles)
    {
      timeRemaining := 0.0;
      EndGame(PupilWins);
    }

    /** The teacher part of update; reaching the goal ends the round for the teacher. */
    method MoveTeacher(sqrt: real -> real, dt: real, teacherInput: Teachers.TeacherInput,
                       pupilInput: Pupils.PupilInput)
      requires IsSqrt(sqrt) && 0.0 < dt && Sound(State())
      modifies this, teacher, pupil, ids, projectiles
      ensures State() == Moving(sqrt, old(State()), dt, teacherInput, pupilInput, obstacles)
      ensures teacher == old(teacher) && pupil == old(pupil)
    {
      ghost var c := State();
      TeacherMovedKeepsSound(sqrt, c, dt, teacherInput, obstacles);
      ghost var m := TeacherMoved(sqrt, c, dt, teacherInput, obstacles);
      if teacher != null {
        teacher.Update(sqrt, dt, teacherInput, obstacles);
        assert State() == m;
        if teacher.HasReachedGoal() {
          EndGame(TeacherWins);
          assert State() == Ended(m, TeacherWins);
          return;
        }
      }
      assert State() == m;
      UpdateEntities(sqrt, dt, pupilInput);
      assert State() == Rest(sqrt, m, dt, pupilInput, obstacles);
    }

    /** The rest of update: the pupil, the flights, the hits and the removal loop. */
    method UpdateEntities(sqrt: real -> real, dt: real, pupilInput: Pupils.PupilInput)
      requires IsSqrt(sqrt) && 0.0 < dt && Sound(State())
      modifies this, pupil, ids, projectiles, teacher
      ensures State() == Rest(sqrt, old(State()), dt, pupilInput, obstacles)
      ensures teacher == old(teacher) && pupil == old(pupil)
    {
      ghost var s0 := State();
      UpdatePupil(sqrt, dt, pupilInput);
      PupilActedKeepsSound(sqrt, s0, dt, pupilInput, obstacles);
      ghost var a := State();
      UpdateProjectiles(dt);
      FlownKeepsSound(a, dt);
      CheckCollisions(sqrt);
      RemoveInactive();
    }

    /** The pupil's update; a throw spawns a projectile and a throw event. */
    method UpdatePupil(sqrt: real -> real, dt: real, input: Pupils.PupilInput)
      requires IsSqrt(sqrt)
      modifies this, pupil, ids
      ensures State() == PupilActed(sqrt, old(State()), dt, input, obstacles)
      ensures teacher == old(teacher) && pupil == old(pupil)
      ensures forall p :: p in projectiles ==> p in old(projectiles) || fresh(p)
    {
      if pupil != null {
        ghost var s0 := State();
        var thrown := pupil.Update(dt, input, obstacles);
        ghost var acted := s0.(pupil := Some(pupil.State()));
        assert State() == acted;
        if thrown.Some? {
          SpawnProjectile(sqrt, thrown.value);
          assert State() == Spawned(sqrt, acted, thrown.value);
        }
      }
    }

    /** The throw branch of the pupil's update. */
    method SpawnProjectile(sqrt: real -> real, t: Pupils.Throw)
      requires IsSqrt(sqrt)
      modifies this, ids
      ensures State() == Spawned(sqrt, old(State()), t)
      ensures teacher == old(teacher) && pupil == old(pupil)
      ensures forall p :: p in projectiles ==> p in old(projectiles) || fresh(p)
    {
      var proj := new Projectile(ids, sqrt, t.startX, t.startY, t.targetX, t.targetY);
      StatesAppend(projectiles, [proj]);
      projectiles := projectiles + [proj];
      events := events + [ThrowEvent(proj.id)];
    }

    /** for (const proj of this.projectiles) proj.update(deltaTime) */
    method UpdateProjectiles(dt: real)
      requires 0.0 < dt && Sound(State())
      modifies set p | p in projectiles
      ensures State() == Flown(old(State()), dt)
    {
      ghost var ss := States(projectiles);
      forall i, j | 0 <= i < |projectiles| && 0 <= j < |projectiles| && projectiles[i] == projectiles[j]
        ensures i == j
      {
        assert ss[i].id == ss[j].id;
      }
      for i := 0 to |projectiles|
        invariant forall k :: 0 <= k < i ==> projectiles[k].State() == Advance(ss[k], dt)
        invariant forall k :: i <= k < |projectiles| ==> projectiles[k].State() == ss[k]
      {
        assert ss[i] in ss;
        projectiles[i].Update(dt);
      }
    }

    /** checkCollisions */
    method CheckCollisions(sqrt: real -> real)
      requires IsSqrt(sqrt) && Sound(State())
      modifies this, teacher
      ensures State() == Collided(sqrt, old(State()))
      ensures teacher == old(teacher) && pupil == old(pupil)
    {
      if teacher == null {
        return;
      }
      var hits := CheckAllProjectileCollisions(sqrt, projectiles, teacher);
      HitsHaveStates(sqrt, projectiles, teacher.State());
      HitsAreTheReported(sqrt, projectiles, teacher.State());
      UniqueIds(projectiles);
      HandleEggHits(hits);
    }

    /** for (const egg of hits) this.handleEggHit(egg) */
    method HandleEggHits(hits: seq<Projectile>)
      requires teacher != null && IdsUnique(projectiles)
      requires forall h :: h in hits ==> h in projectiles
      modifies this, teacher
      ensures State() == HandleHits(old(State()), old(States(hits)))
      ensures teacher == old(teacher) && pupil == old(pupil)
    {
      ghost var s0 := State();
      ghost var eggs := States(hits);
      ghost var original := projectiles;
      for i := 0 to |hits|
        invariant teacher != null && teacher == old(teacher) && pupil == old(pupil)
        invariant unchanged(hits)
        invariant State() == HandleHits(s0, eggs[..i])
        invariant IdsUnique(projectiles) && IdsUnique(original)
        invariant forall p :: p in projectiles ==> p in original
      {
        var egg := hits[i];
        assert egg.State() == eggs[i];
        HitStep(egg, s0, eggs, i, original);
      }
      assert eggs[..|hits|] == eggs;
    }

    /** One round of the hit loop: the handled prefix grows by the egg. */
    method HitStep(egg: Projectile, ghost s0: SimState, ghost eggs: seq<ProjectileState>, ghost i: nat,
                   ghost original: seq<Projectile>)
      requires teacher != null && s0.teacher.Some? && i < |eggs| && egg.State() == eggs[i]
      requires IdsUnique(projectiles) && egg in original && IdsUnique(original)
      requires forall p :: p in projectiles ==> p in original
      requires State() == HandleHits(s0, eggs[..i])
      modifies this, teacher
      ensures State() == HandleHits(s0, eggs[..i + 1])
      ensures IdsUnique(projectiles) && forall p :: p in projectiles ==> p in original
      ensures teacher == old(teacher) && pupil == old(pupil)
    {
      ghost var before := projectiles;
      ghost var mid := State();
      HandleEggHit(egg);
      RemovedIsWithout(before, egg, original);
      RemovedKeepsUnique(before, egg);
      ghost var h := HandleHit(mid, eggs[i]);
      assert States(Removed(before, egg)) == h.projectiles;
      assert State() == h;
      HandleHitsSnoc(s0, eggs, i);
    }

    /** handleEggHit(egg) */
    method HandleEggHit(egg: Projectile)
      requires teacher != null
      modifies this, teacher
      ensures teacher == old(teacher) && pupil == old(pupil)
      ensures projectiles == Removed(old(projectiles), egg)
      ensures State() == HandleHit(old(State()), egg.State()).(projectiles := States(Removed(old(projectiles), egg)))
    {
      events := events + [HitEvent(egg.x, egg.y, egg.id)];
      teacher.Respawn();
      var index := IndexOf(projectiles, egg);
      if index > -1 {
        projectiles := projectiles[..index] + projectiles[index + 1..];
      }
    }

    /** The removal loop of update. */
    method RemoveInactive()
      modifies this
      ensures State() == Cleared(old(State()))
      ensures teacher == old(teacher) && pupil == old(pupil)
    {
      var kept, splats := SpliceInactive(projectiles);
      projectiles := kept;
      events := events + splats;
    }

    /**
     * The loop body of the removal: from the back of the list, each egg no
     * longer in flight is spliced out, with a splat if it landed.
     */
    static method SpliceInactive(ps: seq<Projectile>) returns (kept: seq<Projectile>, splats: seq<Event>)
      ensures States(kept) == ActiveStates(States(ps)) && splats == Splats(States(ps))
    {
      ghost var ss := States(ps);
      kept := ps;
      splats := [];
      var i := |kept|;
      while i > 0
        invariant 0 <= i <= |ps| && i <= |kept|
        invariant States(kept) == ss[..i] + ActiveStates(ss[i..])
        invariant splats == Splats(ss[i..])
      {
        i := i - 1;
        var proj := kept[i];
        SpliceStep(States(kept), ss, i);
        assert proj.State() == ss[i];
        SplatStep(ss, i);
        if !proj.isActive {
          if proj.hasLanded {
            splats := splats + [SplatEvent(proj.x, proj.y)];
          }
          StatesSplice(kept, i);
          kept := kept[..i] + kept[i + 1..];
        }
      }
      assert ss[0..] == ss;
    }

    /** The room server's direct write of the lobby state, on a restart or a disconnect. */
    method ReturnToLobby()
      modifies this
      ensures State() == old(State()).(state := Lobby)
      ensures teacher == old(teacher) && pupil == old(pupil) && projectiles == old(projectiles)
    {
      state := Lobby;
    }

    /** serialize: the snapshot; the events buffer is emptied. */
    method Serialize() returns (data: Snapshot)
      modifies this
      ensures (data, State()) == Serialized(old(State()))
      ensures teacher == old(teacher) && pupil == old(pupil) && projectiles == old(projectiles)
    {
      var t := if teacher != null then Some(ViewOfTeacher(teacher.State())) else None;
      var p := if pupil != null then Some(ViewOfPupil(pupil.State())) else None;
      data := Snapshot(tick, state, winner, timeRemaining, t, p,
                       ViewsOfEggs(States(projectiles)), events);
      events := [];
    }
  }

  /** One step of the removal loop, on the states. */
  lemma SpliceStep(current: seq<ProjectileState>, ss: seq<ProjectileState>, i: nat)
    requires i < |ss| && current == ss[..i + 1] + ActiveStates(ss[i + 1..])
    ensures current[i] == ss[i]
    ensures ss[i].isActive ==> current == ss[..i] + ActiveStates(ss[i..])
    ensures !ss[i].isActive ==> current[..i] + current[i + 1..] == ss[..i] + ActiveStates(ss[i..])
  {
    assert ss[i..][1..] == ss[i + 1..];
    assert ss[..i + 1] == ss[..i] + [ss[i]];
    if !ss[i].isActive {
      assert current[..i] == ss[..i];
      assert current[i + 1..] == ActiveStates(ss[i + 1..]);
    }
  }

  lemma SplatStep(ss: seq<ProjectileState>, i: nat)
    requires i < |ss|
    ensures Splats(ss[i..]) == Splats(ss[i + 1..]) +
              (if !ss[i].isActive && ss[i].hasLanded then [SplatEvent(ss[i].x, ss[i].y)] else [])
  {
    assert ss[i..][1..] == ss[i + 1..];
  }

  lemma StatesSplice(ps: seq<Projectile>, i: nat)
    requires i < |ps|
    ensures States(ps[..i] + ps[i + 1..]) == States(ps)[..i] + States(ps)[i + 1..]
  {
    StatesAppend(ps[..i], ps[i + 1..]);
    StatesSlice(ps, 0, i);
    StatesSlice(ps, i + 1, |ps|);
  }

  /** No two projectile objects of the list share an id (ids are constant fields). */
  predicate IdsUnique(ps: seq<Projectile>) {
    forall i, j :: 0 <= i < |ps| && 0 <= j < |ps| && ps[i].id == ps[j].id ==> i == j
  }

  lemma UniqueIds(ps: seq<Projectile>)
    ensures DistinctIds(States(ps)) <==> IdsUnique(ps)
  {
    var ss := States(ps);
    assert forall k :: 0 <= k < |ps| ==> ss[k].id == ps[k].id;
  }

  /**
   * The splice of handleEggHit removes exactly the eggs with the hit egg's
   * id, provided no other egg of the original list shares it.
   */
  lemma RemovedIsWithout(ps: seq<Projectile>, egg: Projectile, original: seq<Projectile>)
    requires forall p :: p in ps ==> p in original
    requires egg in original && IdsUnique(original) && IdsUnique(ps)
    ensures States(Removed(ps, egg)) == Without(States(ps), egg.id)
  {
    UniqueIds(ps);
    if egg in ps {
      RemovedPresent(ps, egg);
    } else {
      forall e | e in States(ps)
        ensures e.id != egg.id
      {
        var k :| 0 <= k < |ps| && States(ps)[k] == e;
        assert ps[k] in ps;
        var a :| 0 <= a < |original| && original[a] == ps[k];
        var b :| 0 <= b < |original| && original[b] == egg;
      }
      WithoutNoId(States(ps), egg.id);
    }
  }

  lemma RemovedKeepsUnique(ps: seq<Projectile>, egg: Projectile)
    requires IdsUnique(ps)
    ensures IdsUnique(Removed(ps, egg)) && forall p :: p in Removed(ps, egg) ==> p in ps
  {
    var index := IndexOf(ps, egg);
    if index > -1 {
      var r := Removed(ps, egg);
      assert forall k :: 0 <= k < |r| ==> r[k] == ps[if k < index then k else k + 1];
    }
  }

  lemma RemovedPresent(ps: seq<Projectile>, egg: Projectile)
    requires egg in ps && DistinctIds(States(ps))
    ensures States(Removed(ps, egg)) == Without(States(ps), egg.id)
  {
    var index := IndexOf(ps, egg);
    StatesSplice(ps, index);
    var ss := States(ps);
    assert forall k :: 0 <= k < |ss| && k != index ==> ss[k].id != ss[index].id;
    WithoutSplice(ss, index);
  }

  /** Removing the id of the egg at index takes out that egg alone, when no other egg shares it. */
  lemma {:induction false} WithoutSplice(ss: seq<ProjectileState>, index: nat)
    requires index < |ss|
    requires forall k :: 0 <= k < |ss| && k != index ==> ss[k].id != ss[index].id
    ensures Without(ss, ss[index].id) == ss[..index] + ss[index + 1..]
    decreases index
  {
    var id := ss[index].id;
    if index == 0 {
      forall e | e in ss[1..]
        ensures e.id != id
      {
        var k :| 0 <= k < |ss| - 1 && ss[1..][k] == e;
        assert ss[k + 1] == e;
      }
      WithoutNoId(ss[1..], id);
    } else {
      var tail := ss[1..];
      assert tail[index - 1] == ss[index];
      forall k | 0 <= k < |tail| && k != index - 1
        ensures tail[k].id != id
      {
        assert tail[k] == ss[k + 1];
      }
      WithoutSplice(tail, index - 1);
      assert ss[..index] == [ss[0]] + tail[..index - 1];
      assert ss[index + 1..] == tail[index..];
    }
  }

  lemma {:induction false} WithoutNoId(ps: seq<ProjectileState>, id: nat)
    requires forall e :: e in ps ==> e.id != id
    ensures Without(ps, id) == ps
    decreases |ps|
  {
    if |ps| > 0 {
      assert ps[1..] <= ps[1..];
      WithoutNoId(ps[1..], id);
      assert ps == [ps[0]] + ps[1..];
    }
  }

  lemma {:induction false} WithoutAppend(a: seq<ProjectileState>, b: seq<ProjectileState>, id: nat)
    ensures Without(a + b, id) == Without(a, id) + Without(b, id)
    decreases |a|
  {
    if |a| > 0 {
      WithoutAppend(a[1..], b, id);
      assert (a + b)[1..] == a[1..] + b;
    } else {
      assert a + b == b;
    }
  }
}
