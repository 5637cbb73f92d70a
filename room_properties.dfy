/**
 * What the room server promises (src/server/index.ts), stated over the
 * value model: role claims only in the lobby and only of a free role, the
 * start gate and its single countdown of 3, 2, 1, restart only after a
 * round, a click only on the tick the button goes down, teardown when a
 * role holder leaves, and the tick that stops the loop once the round is
 * over.
 */
module RoomProperties {
  import opened Wrappers
  import opened Config
  import opened Geometry
  import opened Obstacles
  import opened Simulation
  import opened Room
  import SimulationProperties

  // ---------------------------------------------------------------- connect and messages

  /** onConnect: one more unassigned player; its id, the layout, then the lobby with the new count. */
  lemma ConnectAddsAnUnassignedPlayer(r: RoomState, id: ConnId)
    requires RolesUnique(r.players)
    ensures var q := Connected(r, id);
            q.players == r.players[id := NewPlayer] &&
            q.outbox == r.outbox + [SendTo(id, RoleMessage(id)), SendTo(id, InitMessage(Layout())),
                                    Broadcast(LobbyMessage(LobbyOf(q.players)))] &&
            q.sim == r.sim && q.gameLoop == r.gameLoop && q.countdownRunning == r.countdownRunning
    ensures LobbyOf(Connected(r, id).players).playerCount == |r.players| + (if id in r.players then 0 else 1)
  {
    NewPlayerKeepsRolesUnique(r.players, id);
  }

  /** A message from an unknown connection, and an unhandled one, change nothing. */
  lemma IgnoredMessages(r: RoomState, id: ConnId, message: ClientMessage)
    requires RolesUnique(r.players)
    ensures id !in r.players ==> MessageHandled(r, id, message) == r
    ensures MessageHandled(r, id, Unhandled) == r
  {
  }

  /** input: only the sender's latest input changes; nothing is sent. */
  lemma InputOnlyRecords(r: RoomState, id: ConnId, input: Option<RawInput>)
    requires RolesUnique(r.players) && id in r.players
    ensures var q := MessageHandled(r, id, InputMessage(input));
            q.players.Keys == r.players.Keys &&
            q.players[id] == r.players[id].(lastInput := input) &&
            (forall other :: other in r.players && other != id ==> q.players[other] == r.players[other]) &&
            q == r.(players := q.players)
  {
  }

  // ---------------------------------------------------------------- roles

  /**
   * selectRole assigns the requested role exactly when the round is still
   * in the lobby, the name is one of the four roles, and nobody else holds
   * it; otherwise nothing changes. Only the sender's role changes.
   */
  lemma SelectRoleRules(r: RoomState, id: ConnId, name: string)
    requires RolesUnique(r.players) && id in r.players
    ensures var q := RoleSelected(r, id, name);
            var granted := r.sim.state == Lobby && ParseRole(name).Some? &&
                           forall other :: other in r.players && other != id ==>
                             r.players[other].role != ParseRole(name).value;
            (granted ==> q.players == r.players[id := r.players[id].(role := ParseRole(name).value)] &&
                         q.outbox == r.outbox + [Broadcast(LobbyMessage(LobbyOf(q.players)))]) &&
            (!granted ==> q == r) &&
            q.sim == r.sim && q.gameLoop == r.gameLoop && q.countdownRunning == r.countdownRunning
  {
    var granted := r.sim.state == Lobby && ParseRole(name).Some? &&
                   forall other :: other in r.players && other != id ==>
                     r.players[other].role != ParseRole(name).value;
    if granted {
      ClaimKeepsRolesUnique(r.players, id, ParseRole(name).value);
    }
  }

  /** Switching to another role frees the old one: nobody holds it afterwards. */
  lemma SwitchingFreesTheOldRole(r: RoomState, id: ConnId, name: string)
    requires RolesUnique(r.players) && id in r.players
    requires r.players[id].role != Unassigned
    requires RoleSelected(r, id, name).players[id].role != r.players[id].role
    ensures forall c :: c in RoleSelected(r, id, name).players ==>
              RoleSelected(r, id, name).players[c].role != r.players[id].role
  {
    var q := RoleSelected(r, id, name);
    SelectRoleRules(r, id, name);
    forall c | c in q.players
      ensures q.players[c].role != r.players[id].role
    {
      if c != id {
        assert q.players[c] == r.players[c];
      }
    }
  }

  // ---------------------------------------------------------------- start and countdown

  /**
   * start opens a countdown only in the lobby with a teacher and a pupil
   * and no countdown yet; a second start while one runs changes nothing.
   */
  lemma StartGate(r: RoomState)
    ensures r.countdownRunning ==> StartRequested(r) == r
    ensures !r.countdownRunning ==>
              (StartRequested(r).countdownRunning <==> r.sim.state == Lobby && HasAllPlayers(r.players))
    ensures StartRequested(r).sim == r.sim && StartRequested(r).players == r.players
    ensures StartRequested(r).gameLoop == r.gameLoop
  {
  }

  /**
   * A countdown broadcasts 3, then 2 and 1 one second apart, and on the
   * third second clears itself, starts the round, broadcasts the team
   * counts and starts the game loop; before that the round is untouched.
   */
  lemma CountdownThreeTwoOne(r: RoomState)
    requires !r.countdownRunning
    ensures var c0 := CountdownStarted(r);
            var c1 := CountdownStepped(c0);
            var c2 := CountdownStepped(c1);
            var c3 := CountdownStepped(c2);
            c0.outbox == r.outbox + [Broadcast(CountdownMessage(3))] &&
            c1.outbox == c0.outbox + [Broadcast(CountdownMessage(2))] &&
            c2.outbox == c1.outbox + [Broadcast(CountdownMessage(1))] &&
            c0.countdownRunning && c1.countdownRunning && c2.countdownRunning &&
            c0.sim == r.sim && c1.sim == r.sim && c2.sim == r.sim && c2.gameLoop == r.gameLoop &&
            c3.outbox == c2.outbox + [Broadcast(StartMessage(TeamCount(r.players, TeacherTeam),
                                                             TeamCount(r.players, PupilTeam)))] &&
            c3.sim == Started(r.sim) && c3.sim.state == Playing &&
            c3.gameLoop && !c3.countdownRunning && c3.players == r.players
  {
  }

  /** A set no larger than its superset. */
  lemma {:induction false} SubsetNoLarger<T>(a: set<T>, b: set<T>)
    requires a <= b
    ensures |a| <= |b|
    decreases b
  {
    if a != {} {
      var x :| x in a;
      SubsetNoLarger(a - {x}, b - {x});
    }
  }

  /** The two roles of a team. */
  function TeamRoles(team: Team): (roles: (Role, Role))
    ensures forall role :: RoleTeam(role) == Some(team) <==> role == roles.0 || role == roles.1
  {
    match team
    case TeacherTeam => (Teacher1, Teacher2)
    case PupilTeam => (Pupil1, Pupil2)
  }

  /** With unique roles a team has at most two players; the lobby's gate guarantees at least one. */
  lemma TeamCountBounds(players: Players, team: Team)
    requires RolesUnique(players)
    ensures TeamCount(players, team) <= 2
    ensures (exists id :: id in players && RoleTeam(players[id].role) == Some(team)) ==> 1 <= TeamCount(players, team)
  {
    var members := set id | id in players && RoleTeam(players[id].role) == Some(team);
    var (a, b) := TeamRoles(team);
    var holders := (match Holder(players, a) case Some(h) => {h} case None => {}) +
                   (match Holder(players, b) case Some(h) => {h} case None => {});
    forall id | id in members
      ensures id in holders
    {
      assert Holder(players, players[id].role) == Some(id);
    }
    SubsetNoLarger(members, holders);
    if exists id :: id in players && RoleTeam(players[id].role) == Some(team) {
      var id :| id in players && RoleTeam(players[id].role) == Some(team);
      assert id in members;
    }
  }

  /** Two players: "a" holds teacher1 and "b" pupil1. */
  function Pair(): Players {
    map["a" := PlayerInfo(Teacher1, None, false), "b" := PlayerInfo(Pupil1, None, false)]
  }

  /** The same two players after "a" has moved to pupil2. */
  function PairSwitched(): Players {
    Pair()["a" := PlayerInfo(Pupil2, None, false)]
  }

  /** Both pairs keep their roles unique; only the first has both teams. */
  lemma PairTeams()
    ensures RolesUnique(Pair()) && HasAllPlayers(Pair())
    ensures RolesUnique(PairSwitched()) && !HasAllPlayers(PairSwitched())
    ensures TeamCount(PairSwitched(), TeacherTeam) == 0 && TeamCount(PairSwitched(), PupilTeam) == 2
  {
    var after := PairSwitched();
    assert Pair()["a"].role == Teacher1 && Pair()["b"].role == Pupil1;
    assert after.Keys == {"a", "b"} && after["a"].role == Pupil2 && after["b"].role == Pupil1;
    assert (set id | id in after && RoleTeam(after[id].role) == Some(TeacherTeam)) == {};
    assert (set id | id in after && RoleTeam(after[id].role) == Some(PupilTeam)) == {"a", "b"};
  }

  /** In the lobby, "a" may claim the free pupil2 role. */
  lemma PairSwitch(c: RoomState)
    requires c.sim.state == Lobby && c.players == Pair()
    ensures RolesUnique(c.players)
    ensures var q := RoleSelected(c, "a", "pupil2");
            q.players == PairSwitched() && q.countdown == c.countdown && q.sim == c.sim
  {
    PairTeams();
    assert ParseRole("pupil2") == Some(Pupil2);
    assert forall other :: other in c.players && other != "a" ==> c.players[other].role != Pupil2 by {
      assert c.players.Keys == {"a", "b"} && c.players["b"].role == Pupil1;
    }
    SelectRoleRules(c, "a", "pupil2");
    assert c.players["a"].(role := Pupil2) == PlayerInfo(Pupil2, None, false);
  }

  /**
   * The gate is not checked again when the countdown ends: the only
   * teacher may move to a free pupil role meanwhile (the state is still
   * the lobby), and the round starts with no teacher in the counts.
   */
  lemma CountdownDoesNotRecheckTheTeams(sim: SimState)
    requires sim.state == Lobby
    ensures RolesUnique(Pair())
    ensures var r := RoomState(sim, Pair(), false, false, 0, []);
            var started := StartRequested(r);
            var switched := RoleSelected(started, "a", "pupil2");
            var c3 := CountdownStepped(CountdownStepped(CountdownStepped(switched)));
            HasAllPlayers(r.players) && started.countdownRunning &&
            !HasAllPlayers(switched.players) &&
            c3.sim.state == Playing && c3.outbox[|c3.outbox| - 1] == Broadcast(StartMessage(0, 2))
  {
    PairTeams();
    var r := RoomState(sim, Pair(), false, false, 0, []);
    var started := StartRequested(r);
    PairSwitch(started);
    CountdownEndsWithTheCurrentTeams(RoleSelected(started, "a", "pupil2"));
  }

  /** Three steps from a fresh count start the round with the teams as they stand at the last step. */
  lemma CountdownEndsWithTheCurrentTeams(c: RoomState)
    requires c.countdown == COUNTDOWN_START
    ensures var c3 := CountdownStepped(CountdownStepped(CountdownStepped(c)));
            c3.sim == Started(c.sim) && c3.sim.state == Playing &&
            c3.outbox[|c3.outbox| - 1] == Broadcast(StartMessage(TeamCount(c.players, TeacherTeam),
                                                                 TeamCount(c.players, PupilTeam)))
  {
  }

  // ---------------------------------------------------------------- restart

  /** restart acts only after a round: back to the lobby, every player unassigned with no input. */
  lemma RestartRules(r: RoomState)
    ensures r.sim.state != GameOver ==> Restarted(r) == r
    ensures r.sim.state == GameOver ==>
              var q := Restarted(r);
              q.sim == r.sim.(state := Lobby) && q.players.Keys == r.players.Keys &&
              (forall id :: id in q.players ==> q.players[id] == NewPlayer) &&
              q.outbox == r.outbox + [Broadcast(LobbyMessage(LobbyOf(q.players)))] &&
              !LobbyOf(q.players).canStart
  {
  }

  // ---------------------------------------------------------------- the click edge

  /** Whether an input holds the button down. */
  predicate Down(input: Option<RawInput>) {
    input.Some? && input.value.click
  }

  /**
   * The clicks a pupil's slot carries over a run of ticks, with `inputs[k]`
   * the latest input when tick k gathers.
   */
  function Clicks(p: PlayerInfo, inputs: seq<Option<RawInput>>): (clicks: seq<bool>)
    ensures |clicks| == |inputs|
    decreases |inputs|
  {
    if |inputs| == 0 then []
    else
      var q := p.(lastInput := inputs[0]);
      [PupilInputOf(q).click] + Clicks(AfterGather(q), inputs[1..])
  }

  /**
   * A pupil's click fires exactly on the ticks where the button goes from
   * up to down: on the first tick against the remembered state, later
   * against the previous tick's input.
   */
  lemma {:induction false} ClicksAreRisingEdges(p: PlayerInfo, inputs: seq<Option<RawInput>>)
    requires RoleTeam(p.role) == Some(PupilTeam)
    ensures 0 < |inputs| ==> (Clicks(p, inputs)[0] <==> Down(inputs[0]) && !p.prevClick)
    ensures forall k :: 0 < k < |inputs| ==> (Clicks(p, inputs)[k] <==> Down(inputs[k]) && !Down(inputs[k - 1]))
    decreases |inputs|
  {
    if |inputs| > 0 {
      var q := AfterGather(p.(lastInput := inputs[0]));
      ClicksAreRisingEdges(q, inputs[1..]);
      assert q.prevClick == Down(inputs[0]);
      forall k | 0 < k < |inputs|
        ensures Clicks(p, inputs)[k] <==> Down(inputs[k]) && !Down(inputs[k - 1])
      {
        assert Clicks(p, inputs)[k] == Clicks(q, inputs[1..])[k - 1];
        assert inputs[1..][k - 1] == inputs[k];
        if k > 1 {
          assert inputs[1..][k - 2] == inputs[k - 1];
        }
      }
    }
  }

  /** Holding the button down over many ticks throws at most once. */
  lemma HeldButtonClicksOnce(p: PlayerInfo, inputs: seq<Option<RawInput>>)
    requires RoleTeam(p.role) == Some(PupilTeam)
    requires forall k :: 0 <= k < |inputs| ==> Down(inputs[k])
    ensures forall k :: 0 < k < |inputs| ==> !Clicks(p, inputs)[k]
    ensures 0 < |inputs| ==> (Clicks(p, inputs)[0] <==> !p.prevClick)
  {
    ClicksAreRisingEdges(p, inputs);
    forall k | 0 < k < |inputs|
      ensures !Clicks(p, inputs)[k]
    {
      assert Down(inputs[k - 1]);
    }
  }

  // ---------------------------------------------------------------- disconnect

  /**
   * onClose removes the player. A role holder leaving a round in play
   * stops the loop, returns to the lobby and tells everyone; a role holder
   * leaving also cancels any countdown. Anyone else leaving only updates
   * the lobby.
   */
  lemma CloseRules(r: RoomState, id: ConnId)
    requires RolesUnique(r.players)
    ensures var q := Closed(r, id);
            var holder := id in r.players && r.players[id].role != Unassigned;
            q.players == r.players - {id} &&
            q.outbox[|q.outbox| - 1] == Broadcast(LobbyMessage(LobbyOf(q.players))) &&
            (holder ==> !q.countdownRunning) &&
            (holder && r.sim.state == Playing ==>
               !q.gameLoop && q.sim == r.sim.(state := Lobby) &&
               q.outbox == r.outbox + [Broadcast(DisconnectedMessage(r.players[id].role,
                                                                     RoleTeam(r.players[id].role).value)),
                                       Broadcast(LobbyMessage(LobbyOf(q.players)))]) &&
            (!(holder && r.sim.state == Playing) ==>
               q.gameLoop == r.gameLoop && q.sim == r.sim &&
               q.outbox == r.outbox + [Broadcast(LobbyMessage(LobbyOf(q.players)))]) &&
            (!holder ==> q.countdownRunning == r.countdownRunning)
  {
    RemovalKeepsRolesUnique(r.players, id);
    var removed := r.(players := r.players - {id});
    if id in r.players && r.players[id].role != Unassigned {
      var role := r.players[id].role;
      if r.sim.state == Playing {
        assert Closed(r, id) == WithLobby(Abandoned(removed, role).(countdownRunning := false));
      } else {
        assert Closed(r, id) == WithLobby(removed.(countdownRunning := false));
      }
    } else {
      assert Closed(r, id) == WithLobby(removed);
    }
  }

  // ---------------------------------------------------------------- the game tick

  /**
   * Outside a round a tick only stops the loop. In a round it counts one
   * tick, remembers the pupils' buttons, broadcasts the snapshot of the
   * new state, and keeps the loop running only while the round is not over.
   */
  lemma TickRules(sqrt: real -> real, r: RoomState)
    requires IsSqrt(sqrt) && RoomInvariant(r)
    ensures r.sim.state != Playing ==> Ticked(sqrt, r) == r.(gameLoop := false)
    ensures r.sim.state == Playing ==>
              var q := Ticked(sqrt, r);
              q.players == Gathered(r.players) && q.sim.tick == r.sim.tick + 1 && q.sim.events == [] &&
              q.countdownRunning == r.countdownRunning &&
              |q.outbox| == |r.outbox| + 1 && q.outbox[..|r.outbox|] == r.outbox &&
              q.outbox[|r.outbox|] == Broadcast(StateMessage(Serialized(Tick(sqrt, r.sim, TICK_DT,
                EntityTeacherInput(TeacherSlots(r.players)), EntityPupilInput(PupilSlots(r.players)),
                Layout())).0)) &&
              (q.gameLoop <==> r.gameLoop && q.sim.state != GameOver)
  {
    if r.sim.state == Playing {
      SimulationProperties.TickIdleUnlessPlaying(sqrt, r.sim, TICK_DT, EntityTeacherInput(TeacherSlots(r.players)),
                                                 EntityPupilInput(PupilSlots(r.players)), Layout());
    }
  }
}
