/**
 * The room server (src/server/index.ts): a map of players keyed by
 * connection id, role claiming in the lobby, the start gate and its
 * three-second countdown, restart back to the lobby, the per-player latest
 * input with the server's click edge detection, teardown on disconnect,
 * and the 20 Hz game loop that steps the simulation and broadcasts its
 * snapshot.  The intervals are boolean handles with explicit step
 * operations; every message the server sends is appended to an outbox.
 */
module Room {
  import opened Wrappers
  import opened Config
  import opened Geometry
  import opened Obstacles
  import opened Simulation
  import Teachers
  import Pupils

  /** TICK_RATE, and the deltaTime of one game tick. */
  const TICK_RATE: int := 20
  const TICK_DT: real := 1.0 / 20.0

  /** The seconds the countdown starts from. */
  const COUNTDOWN_START: int := 3

  type ConnId = string

  /** Role: one of VALID_ROLES, or unassigned. */
  datatype Role = Unassigned | Teacher1 | Teacher2 | Pupil1 | Pupil2

  datatype Team = TeacherTeam | PupilTeam

  /** roleSlot */
  function RoleSlot(role: Role): (slot: int)
    ensures -1 <= slot <= 1 && (slot == -1 <==> role == Unassigned)
  {
    match role
    case Teacher1 => 0
    case Pupil1 => 0
    case Teacher2 => 1
    case Pupil2 => 1
    case Unassigned => -1
  }

  /** roleTeam */
  function RoleTeam(role: Role): (team: Option<Team>)
    ensures team.None? <==> role == Unassigned
  {
    match role
    case Teacher1 => Some(TeacherTeam)
    case Teacher2 => Some(TeacherTeam)
    case Pupil1 => Some(PupilTeam)
    case Pupil2 => Some(PupilTeam)
    case Unassigned => None
  }

  /** The team and the slot of an assigned role name it exactly. */
  lemma TeamAndSlotIdentifyRole(a: Role, b: Role)
    requires a != Unassigned && RoleTeam(a) == RoleTeam(b) && RoleSlot(a) == RoleSlot(b)
    ensures a == b
  {
  }

  /** The membership test against VALID_ROLES; "unassigned" is not among them. */
  function ParseRole(name: string): (r: Option<Role>)
    ensures r.Some? <==> name == "teacher1" || name == "teacher2" || name == "pupil1" || name == "pupil2"
    ensures r.Some? ==> r.value != Unassigned
  {
    if name == "teacher1" then Some(Teacher1)
    else if name == "teacher2" then Some(Teacher2)
    else if name == "pupil1" then Some(Pupil1)
    else if name == "pupil2" then Some(Pupil2)
    else None
  }

  /**
   * The input record a client sends; a field the client leaves out reads
   * as false or 0, as the source's `||` defaults and property lookups do.
   */
  datatype RawInput = RawInput(up: bool, down: bool, left: bool, right: bool, sprint: bool,
                               mouseX: real, mouseY: real, click: bool)

  /** PlayerInfo; a lastInput of None is the source's null. */
  datatype PlayerInfo = PlayerInfo(role: Role, lastInput: Option<RawInput>, prevClick: bool)

  const NewPlayer: PlayerInfo := PlayerInfo(Unassigned, None, false)

  /** The parsed client messages; Unhandled stands for tts, unknown types and JSON that does not parse. */
  datatype ClientMessage =
    | SelectRole(name: string)
    | Start
    | InputMessage(input: Option<RawInput>)
    | Restart
    | Unhandled

  datatype SlotInfo = SlotInfo(taken: bool, playerId: Option<ConnId>)

  datatype LobbyInfo = LobbyInfo(playerCount: nat, teacher1: SlotInfo, teacher2: SlotInfo,
                                 pupil1: SlotInfo, pupil2: SlotInfo, canStart: bool)

  datatype ServerMessage =
    | RoleMessage(playerId: ConnId)
    | InitMessage(obstacles: seq<Obstacle>)
    | LobbyMessage(lobby: LobbyInfo)
    | CountdownMessage(count: int)
    | StartMessage(teacherCount: nat, pupilCount: nat)
    | StateMessage(snapshot: Snapshot)
    | DisconnectedMessage(role: Role, team: Team)

  /** connection.send to one connection, or room.broadcast. */
  datatype Outgoing = SendTo(to: ConnId, message: ServerMessage) | Broadcast(message: ServerMessage)

  type Players = map<ConnId, PlayerInfo>

  /** At most one connection holds each of the four roles. */
  predicate RolesUnique(players: Players) {
    forall a, b :: a in players && b in players && a != b && players[a].role != Unassigned ==>
                     players[a].role != players[b].role
  }

  predicate HoldsRole(players: Players, id: ConnId, role: Role) {
    id in players && players[id].role == role
  }

  /** The connection holding an assigned role, if any. */
  function Holder(players: Players, role: Role): (r: Option<ConnId>)
    requires RolesUnique(players) && role != Unassigned
    ensures r.Some? ==> HoldsRole(players, r.value, role)
    ensures r.None? ==> forall id :: id in players ==> players[id].role != role
  {
    if exists id :: id in players && players[id].role == role then
      var id :| id in players && players[id].role == role;
      Some(id)
    else None
  }

  /** getSlotInfo: whether a role is held, and by whom (an empty id reads as null). */
  function SlotInfoOf(players: Players, role: Role): (info: SlotInfo)
    requires RolesUnique(players) && role != Unassigned
    ensures info.taken <==> exists id :: HoldsRole(players, id, role)
    ensures forall id :: HoldsRole(players, id, role) ==> info.playerId == (if id == "" then None else Some(id))
    ensures !info.taken ==> info.playerId.None?
  {
    match Holder(players, role)
    case None => SlotInfo(false, None)
    case Some(id) => SlotInfo(true, if id == "" then None else Some(id))
  }

  /** The roles held, as the source's list of roles. */
  function Roles(players: Players): set<Role> {
    set id | id in players :: players[id].role
  }

  /** hasAllPlayers */
  function HasAllPlayers(players: Players): (r: bool)
    ensures r <==> (exists id :: id in players && RoleTeam(players[id].role) == Some(TeacherTeam)) &&
                   (exists id :: id in players && RoleTeam(players[id].role) == Some(PupilTeam))
  {
    var roles := Roles(players);
    var r := (Teacher1 in roles || Teacher2 in roles) && (Pupil1 in roles || Pupil2 in roles);
    assert r ==> (exists id :: id in players && RoleTeam(players[id].role) == Some(TeacherTeam));
    r
  }

  /** The lobby broadcast. */
  function LobbyOf(players: Players): (l: LobbyInfo)
    requires RolesUnique(players)
    ensures l.playerCount == |players| && l.canStart == HasAllPlayers(players)
    ensures l.teacher1 == SlotInfoOf(players, Teacher1) && l.teacher2 == SlotInfoOf(players, Teacher2)
    ensures l.pupil1 == SlotInfoOf(players, Pupil1) && l.pupil2 == SlotInfoOf(players, Pupil2)
  {
    LobbyInfo(|players|, SlotInfoOf(players, Teacher1), SlotInfoOf(players, Teacher2),
              SlotInfoOf(players, Pupil1), SlotInfoOf(players, Pupil2), HasAllPlayers(players))
  }

  /** The number of players in a team, as startGame counts them. */
  function TeamCount(players: Players, team: Team): nat {
    |set id | id in players && RoleTeam(players[id].role) == Some(team)|
  }

  // ---------------------------------------------------------------- inputs

  /** teacherInputs[slot]: the latest input, or no keys before the first one. */
  function TeacherInputOf(p: PlayerInfo): (input: Teachers.TeacherInput)
    ensures p.lastInput.None? ==> input == Teachers.NoKeys
    ensures p.lastInput.Some? ==>
              var i := p.lastInput.value;
              input.up == i.up && input.down == i.down && input.left == i.left &&
              input.right == i.right && input.sprint == i.sprint
  {
    match p.lastInput
    case None => Teachers.NoKeys
    case Some(i) => Teachers.TeacherInput(i.up, i.down, i.left, i.right, i.sprint)
  }

  /** Whether the latest input holds the button down. */
  function IsDown(p: PlayerInfo): bool {
    p.lastInput.Some? && p.lastInput.value.click
  }

  /** pupilInputs[slot]: the latest mouse position, and a click only on the tick the button goes down. */
  function PupilInputOf(p: PlayerInfo): (input: Pupils.PupilInput)
    ensures input.click <==> IsDown(p) && !p.prevClick
    ensures p.lastInput.Some? ==>
              input.mouseX == p.lastInput.value.mouseX && input.mouseY == p.lastInput.value.mouseY
    ensures p.lastInput.None? ==> input.mouseX == 0.0 && input.mouseY == 0.0
  {
    match p.lastInput
    case None => Pupils.PupilInput(0.0, 0.0, false)
    case Some(i) => Pupils.PupilInput(i.mouseX, i.mouseY, i.click && !p.prevClick)
  }

  /** The gather loop's effect on one player: a pupil remembers whether the button was down. */
  function AfterGather(p: PlayerInfo): (q: PlayerInfo)
    ensures q.role == p.role && q.lastInput == p.lastInput
    ensures RoleTeam(p.role) == Some(PupilTeam) ==> q.prevClick == IsDown(p)
    ensures RoleTeam(p.role) != Some(PupilTeam) ==> q == p
  {
    if RoleTeam(p.role) == Some(PupilTeam) then p.(prevClick := IsDown(p)) else p
  }

  function Gathered(players: Players): (r: Players)
    ensures r.Keys == players.Keys && forall id :: id in players ==> r[id] == AfterGather(players[id])
  {
    map id | id in players :: AfterGather(players[id])
  }

  /** The players part way through the gather loop, with those in `done` visited. */
  function PartlyGathered(players: Players, done: set<ConnId>): (r: Players)
    ensures r.Keys == players.Keys
  {
    map id | id in players :: if id in done then AfterGather(players[id]) else players[id]
  }

  /** Visiting one more player applies AfterGather to that player alone. */
  lemma PartlyGatheredStep(players: Players, done: set<ConnId>, id: ConnId)
    requires id in players && id !in done
    ensures PartlyGathered(players, done)[id] == players[id]
    ensures PartlyGathered(players, done)[id := AfterGather(players[id])] == PartlyGathered(players, done + {id})
  {
  }

  /** Before the loop nobody is visited; after it everybody is. */
  lemma PartlyGatheredAll(players: Players)
    ensures PartlyGathered(players, {}) == players
    ensures PartlyGathered(players, players.Keys) == Gathered(players)
  {
  }

  /**
   * The slot map the gather loop builds from the players in `ids`: each
   * member of the team writes its input at its role's slot.
   */
  function TeamSlots<T>(players: Players, ids: set<ConnId>, team: Team, f: PlayerInfo -> T): (m: map<int, T>)
    requires RolesUnique(players) && ids <= players.Keys
  {
    map id | id in ids && RoleTeam(players[id].role) == Some(team) :: RoleSlot(players[id].role) := f(players[id])
  }

  /** teacherInputs: slot 0 for teacher1, slot 1 for teacher2. */
  function TeacherSlots(players: Players): map<int, Teachers.TeacherInput>
    requires RolesUnique(players)
  {
    TeamSlots(players, players.Keys, TeacherTeam, TeacherInputOf)
  }

  /** pupilInputs: slot 0 for pupil1, slot 1 for pupil2. */
  function PupilSlots(players: Players): map<int, Pupils.PupilInput>
    requires RolesUnique(players)
  {
    TeamSlots(players, players.Keys, PupilTeam, PupilInputOf)
  }

  /**
   * A slot is in the map exactly when a member of the team among `ids`
   * holds it, and it carries that member's input: at most one player
   * writes each slot.
   */
  lemma TeamSlotsAreTheMembers<T>(players: Players, ids: set<ConnId>, team: Team, f: PlayerInfo -> T)
    requires RolesUnique(players) && ids <= players.Keys
    ensures forall k :: k in TeamSlots(players, ids, team, f) <==>
              exists id :: id in ids && RoleTeam(players[id].role) == Some(team) && RoleSlot(players[id].role) == k
    ensures forall id :: id in ids && RoleTeam(players[id].role) == Some(team) ==>
              TeamSlots(players, ids, team, f)[RoleSlot(players[id].role)] == f(players[id])
  {
    forall id | id in ids && RoleTeam(players[id].role) == Some(team)
      ensures RoleSlot(players[id].role) in TeamSlots(players, ids, team, f)
      ensures TeamSlots(players, ids, team, f)[RoleSlot(players[id].role)] == f(players[id])
    {
      var m := TeamSlots(players, ids, team, f);
      var k := RoleSlot(players[id].role);
      assert k in m;
      var other :| other in ids && RoleTeam(players[other].role) == Some(team) &&
                   RoleSlot(players[other].role) == k && m[k] == f(players[other]);
      TeamAndSlotIdentifyRole(players[id].role, players[other].role);
    }
  }

  /** A teacher's slot carries that teacher's keys; a slot nobody holds is absent. */
  lemma TeacherSlotsAreTheTeachers(players: Players)
    requires RolesUnique(players)
    ensures forall k :: k in TeacherSlots(players) <==>
              exists id :: id in players && RoleTeam(players[id].role) == Some(TeacherTeam) && RoleSlot(players[id].role) == k
    ensures forall id :: id in players && RoleTeam(players[id].role) == Some(TeacherTeam) ==>
              TeacherSlots(players)[RoleSlot(players[id].role)] == TeacherInputOf(players[id])
  {
    TeamSlotsAreTheMembers(players, players.Keys, TeacherTeam, TeacherInputOf);
  }

  /** A pupil's slot carries that pupil's mouse position and edge-detected click. */
  lemma PupilSlotsAreThePupils(players: Players)
    requires RolesUnique(players)
    ensures forall k :: k in PupilSlots(players) <==>
              exists id :: id in players && RoleTeam(players[id].role) == Some(PupilTeam) && RoleSlot(players[id].role) == k
    ensures forall id :: id in players && RoleTeam(players[id].role) == Some(PupilTeam) ==>
              PupilSlots(players)[RoleSlot(players[id].role)] == PupilInputOf(players[id])
  {
    TeamSlotsAreTheMembers(players, players.Keys, PupilTeam, PupilInputOf);
  }

  /** One more player gathered: a member of the team writes its slot; anyone else adds nothing. */
  lemma TeamSlotsStep<T>(players: Players, ids: set<ConnId>, id: ConnId, team: Team, f: PlayerInfo -> T)
    requires RolesUnique(players) && ids <= players.Keys && id in players && id !in ids
    ensures TeamSlots(players, ids + {id}, team, f) ==
              if RoleTeam(players[id].role) == Some(team)
              then TeamSlots(players, ids, team, f)[RoleSlot(players[id].role) := f(players[id])]
              else TeamSlots(players, ids, team, f)
  {
    if RoleTeam(players[id].role) == Some(team) {
      MemberSlotsStep(players, ids, id, team, f);
    } else {
      assert TeamSlots(players, ids + {id}, team, f) == TeamSlots(players, ids, team, f);
    }
  }

  /** A member's slot is free until the member is gathered. */
  lemma SlotFreeUntilGathered<T>(players: Players, ids: set<ConnId>, id: ConnId, team: Team, f: PlayerInfo -> T)
    requires RolesUnique(players) && ids <= players.Keys && id in players && id !in ids
    requires RoleTeam(players[id].role) == Some(team)
    ensures RoleSlot(players[id].role) !in TeamSlots(players, ids, team, f)
  {
    var k := RoleSlot(players[id].role);
    if k in TeamSlots(players, ids, team, f) {
      var other :| other in ids && RoleTeam(players[other].role) == Some(team) && RoleSlot(players[other].role) == k;
      TeamAndSlotIdentifyRole(players[id].role, players[other].role);
    }
  }

  lemma MemberSlotsStep<T>(players: Players, ids: set<ConnId>, id: ConnId, team: Team, f: PlayerInfo -> T)
    requires RolesUnique(players) && ids <= players.Keys && id in players && id !in ids
    requires RoleTeam(players[id].role) == Some(team)
    ensures TeamSlots(players, ids + {id}, team, f) ==
              TeamSlots(players, ids, team, f)[RoleSlot(players[id].role) := f(players[id])]
  {
    SlotFreeUntilGathered(players, ids, id, team, f);
    TeamSlotsAreTheMembers(players, ids, team, f);
    TeamSlotsAreTheMembers(players, ids + {id}, team, f);
  }

  /**
   * What the one teacher and the one pupil of the simulation receive from
   * the slot maps: slot 0's input, else slot 1's, else no input.
   */
  function EntityTeacherInput(slots: map<int, Teachers.TeacherInput>): (input: Teachers.TeacherInput)
    ensures 0 in slots ==> input == slots[0]
    ensures 0 !in slots && 1 in slots ==> input == slots[1]
    ensures 0 !in slots && 1 !in slots ==> input == Teachers.NoKeys
  {
    if 0 in slots then slots[0] else if 1 in slots then slots[1] else Teachers.NoKeys
  }

  function EntityPupilInput(slots: map<int, Pupils.PupilInput>): (input: Pupils.PupilInput)
    ensures 0 in slots ==> input == slots[0]
    ensures 0 !in slots && 1 in slots ==> input == slots[1]
    ensures 0 !in slots && 1 !in slots ==> !input.click
  {
    if 0 in slots then slots[0] else if 1 in slots then slots[1] else Pupils.PupilInput(0.0, 0.0, false)
  }

  /**
   * As written, update hands the slot map itself to the entities, which
   * read up/down/left/right/sprint and mouseX/mouseY/click off it: a map
   * keyed by slot has none of these, so every key reads as released and
   * the mouse as (0, 0).
   */
  function SlotMapAsTeacherInput(slots: map<int, Teachers.TeacherInput>): Teachers.TeacherInput {
    Teachers.NoKeys
  }

  function SlotMapAsPupilInput(slots: map<int, Pupils.PupilInput>): Pupils.PupilInput {
    Pupils.PupilInput(0.0, 0.0, false)
  }

  /**
   * As written, no key a teacher holds moves the teacher and no click
   * throws: a teacher1 holding right and a pupil1 clicking still give a
   * still teacher and no egg.
   */
  lemma SlotMapInputIsIgnored(sqrt: real -> real, slots: map<int, Teachers.TeacherInput>,
                              mouse: map<int, Pupils.PupilInput>, p: Pupils.PupilState, dt: real,
                              obstacles: seq<Obstacle>)
    requires IsSqrt(sqrt) && 0 in slots && slots[0].right && !slots[0].left
    requires 0 in mouse && mouse[0].click
    ensures Teachers.Direction(sqrt, slots[0]).x > 0.0
    ensures Teachers.Direction(sqrt, SlotMapAsTeacherInput(slots)) == Vec(0.0, 0.0)
    ensures !SlotMapAsTeacherInput(slots).sprint
    ensures Pupils.Step(p, dt, SlotMapAsPupilInput(mouse), obstacles).1.None?
  {
  }

  /** With the entity input taken from slot 0, the same teacher1 moves right and pupil1's click arrives. */
  lemma SlotInputReachesEntities(sqrt: real -> real, slots: map<int, Teachers.TeacherInput>,
                                 mouse: map<int, Pupils.PupilInput>)
    requires IsSqrt(sqrt) && 0 in slots && slots[0].right && !slots[0].left
    requires 0 in mouse && mouse[0].click
    ensures Teachers.Direction(sqrt, EntityTeacherInput(slots)).x > 0.0
    ensures EntityPupilInput(mouse).click
  {
  }

  // ---------------------------------------------------------------- the room as a value

  /**
   * The server's fields: the simulation, the players, the two interval
   * handles, the countdown variable of the running countdown, and the
   * messages sent so far.
   */
  datatype RoomState = RoomState(sim: SimState, players: Players, gameLoop: bool,
                                 countdownRunning: bool, countdown: int, outbox: seq<Outgoing>)

  predicate RoomInvariant(r: RoomState) {
    RolesUnique(r.players) && SimInvariant(r.sim)
  }

  /** The constructor. */
  function Opened(nextId: nat): RoomState {
    RoomState(Created(nextId), map[], false, false, 0, [])
  }

  function WithLobby(r: RoomState): RoomState
    requires RolesUnique(r.players)
  {
    r.(outbox := r.outbox + [Broadcast(LobbyMessage(LobbyOf(r.players)))])
  }

  /** onConnect: an unassigned player, its id and the layout to it, the lobby to all. */
  function Connected(r: RoomState, id: ConnId): RoomState
    requires RolesUnique(r.players)
  {
    var players := r.players[id := NewPlayer];
    NewPlayerKeepsRolesUnique(r.players, id);
    WithLobby(r.(players := players,
                 outbox := r.outbox + [SendTo(id, RoleMessage(id))] + [SendTo(id, InitMessage(Layout()))]))
  }

  /** selectRole */
  function RoleSelected(r: RoomState, id: ConnId, name: string): RoomState
    requires RolesUnique(r.players) && id in r.players
  {
    if r.sim.state != Lobby then r
    else match ParseRole(name)
      case None => r
      case Some(role) =>
        if exists other :: other in r.players && other != id && r.players[other].role == role then r
        else
          ClaimKeepsRolesUnique(r.players, id, role);
          WithLobby(r.(players := r.players[id := r.players[id].(role := role)]))
  }

  /** startCountdown: nothing while a countdown runs; otherwise 3 is broadcast and the handle set. */
  function CountdownStarted(r: RoomState): RoomState {
    if r.countdownRunning then r
    else r.(countdown := COUNTDOWN_START, countdownRunning := true,
            outbox := r.outbox + [Broadcast(CountdownMessage(COUNTDOWN_START))])
  }

  /** start: honoured only in the lobby with a teacher and a pupil. */
  function StartRequested(r: RoomState): RoomState {
    if r.sim.state != Lobby || !HasAllPlayers(r.players) then r
    else CountdownStarted(r)
  }

  /** restart: only after a round, back to the lobby with every player unassigned. */
  function Restarted(r: RoomState): RoomState {
    if r.sim.state != GameOver then r
    else
      var players := map id | id in r.players :: NewPlayer;
      assert RolesUnique(players);
      WithLobby(r.(sim := r.sim.(state := Lobby), players := players))
  }

  /** onMessage: a message from an unknown connection, and an unhandled one, change nothing. */
  function MessageHandled(r: RoomState, id: ConnId, message: ClientMessage): RoomState
    requires RolesUnique(r.players)
  {
    if id !in r.players then r
    else match message
      case SelectRole(name) => RoleSelected(r, id, name)
      case Start => StartRequested(r)
      case InputMessage(input) => r.(players := r.players[id := r.players[id].(lastInput := input)])
      case Restart => Restarted(r)
      case Unhandled => r
  }

  /** startGameLoop: the handle is set; a second start changes nothing. */
  function LoopStarted(r: RoomState): RoomState {
    r.(gameLoop := true)
  }

  /** stopGameLoop: the handle is cleared, whether or not it was set. */
  function LoopStopped(r: RoomState): RoomState {
    r.(gameLoop := false)
  }

  /** startGame: the counts are broadcast; the simulation starts its one teacher and one pupil. */
  function GameStarted(r: RoomState): RoomState {
    LoopStarted(r.(sim := Started(r.sim),
                   outbox := r.outbox + [Broadcast(StartMessage(TeamCount(r.players, TeacherTeam),
                                                                TeamCount(r.players, PupilTeam)))]))
  }

  /** One second of the countdown: the next count, or at zero the handle cleared and the game started. */
  function CountdownStepped(r: RoomState): RoomState {
    var count := r.countdown - 1;
    if count > 0 then r.(countdown := count, outbox := r.outbox + [Broadcast(CountdownMessage(count))])
    else GameStarted(r.(countdown := count, countdownRunning := false))
  }

  /**
   * onClose: the player is removed; a role holder leaving a round in play
   * stops the loop and returns to the lobby (with a disconnect notice), and
   * a role holder leaving cancels any countdown.
   */
  function Closed(r: RoomState, id: ConnId): RoomState
    requires RolesUnique(r.players)
  {
    var players := r.players - {id};
    RemovalKeepsRolesUnique(r.players, id);
    var removed := r.(players := players);
    if id in r.players && r.players[id].role != Unassigned then
      var ended := if r.sim.state == Playing then Abandoned(removed, r.players[id].role) else removed;
      WithLobby(ended.(countdownRunning := false))
    else WithLobby(removed)
  }

  /** A round in play that loses a role holder: the loop stops, the lobby returns, all are told. */
  function Abandoned(r: RoomState, role: Role): RoomState
    requires role != Unassigned
  {
    LoopStopped(r).(sim := r.sim.(state := Lobby),
                    outbox := r.outbox + [Broadcast(DisconnectedMessage(role, RoleTeam(role).value))])
  }

  /**
   * gameTick: outside a round the loop stops; in a round the inputs are
   * gathered, the simulation updated, its snapshot broadcast, and the loop
   * stopped once the round is over.
   */
  function Ticked(sqrt: real -> real, r: RoomState): RoomState
    requires IsSqrt(sqrt) && RoomInvariant(r)
  {
    if r.sim.state != Playing then LoopStopped(r) else Played(sqrt, r)
  }

  /** The tick of a round in play. */
  function Played(sqrt: real -> real, r: RoomState): RoomState
    requires IsSqrt(sqrt) && RoomInvariant(r)
  {
    var teacherInput := EntityTeacherInput(TeacherSlots(r.players));
    var pupilInput := EntityPupilInput(PupilSlots(r.players));
    var next := Tick(sqrt, r.sim, TICK_DT, teacherInput, pupilInput, Layout());
    var out := Serialized(next);
    r.(sim := out.1, players := Gathered(r.players),
       outbox := r.outbox + [Broadcast(StateMessage(out.0))],
       gameLoop := r.gameLoop && out.1.state != GameOver)
  }

  // ---------------------------------------------------------------- the invariant

  lemma NewPlayerKeepsRolesUnique(players: Players, id: ConnId)
    requires RolesUnique(players)
    ensures RolesUnique(players[id := NewPlayer])
  {
  }

  lemma ClaimKeepsRolesUnique(players: Players, id: ConnId, role: Role)
    requires RolesUnique(players) && id in players
    requires forall other :: other != id ==> !HoldsRole(players, other, role)
    ensures RolesUnique(players[id := players[id].(role := role)])
  {
    var claimed := players[id := players[id].(role := role)];
    forall a, b | a in claimed && b in claimed && a != b && claimed[a].role != Unassigned
      ensures claimed[a].role != claimed[b].role
    {
      if a == id {
        assert !HoldsRole(players, b, role);
      } else if b == id {
        assert !HoldsRole(players, a, role);
      }
    }
  }

  lemma RemovalKeepsRolesUnique(players: Players, id: ConnId)
    requires RolesUnique(players)
    ensures RolesUnique(players - {id})
  {
  }

  lemma GatherKeepsRolesUnique(players: Players)
    requires RolesUnique(players)
    ensures RolesUnique(Gathered(players))
  {
  }

  /** The constructor's room satisfies the invariant. */
  lemma OpenedIsValid(nextId: nat)
    ensures RoomInvariant(Opened(nextId))
  {
    CreatedAndStartedAreValid(nextId, Created(nextId));
  }

  /** onConnect keeps the invariant. */
  lemma ConnectKeepsInvariant(r: RoomState, id: ConnId)
    requires RoomInvariant(r)
    ensures RoomInvariant(Connected(r, id))
  {
    NewPlayerKeepsRolesUnique(r.players, id);
  }

  /** onMessage keeps the invariant. */
  lemma MessageKeepsInvariant(r: RoomState, id: ConnId, message: ClientMessage)
    requires RoomInvariant(r)
    ensures RoomInvariant(MessageHandled(r, id, message))
  {
    if id in r.players {
      match message
      case SelectRole(name) =>
        var role := ParseRole(name);
        if r.sim.state == Lobby && role.Some? &&
           !exists other :: other in r.players && other != id && r.players[other].role == role.value {
          ClaimKeepsRolesUnique(r.players, id, role.value);
        }
      case InputMessage(input) =>
        var players := r.players[id := r.players[id].(lastInput := input)];
        assert forall c :: c in players ==> players[c].role == r.players[c].role;
      case _ =>
    }
  }

  /** A countdown step keeps the invariant. */
  lemma CountdownKeepsInvariant(r: RoomState)
    requires RoomInvariant(r)
    ensures RoomInvariant(CountdownStepped(r))
  {
    CreatedAndStartedAreValid(r.sim.nextId, r.sim);
  }

  /** onClose keeps the invariant. */
  lemma CloseKeepsInvariant(r: RoomState, id: ConnId)
    requires RoomInvariant(r)
    ensures RoomInvariant(Closed(r, id))
  {
    RemovalKeepsRolesUnique(r.players, id);
  }

  /** A game tick keeps the invariant. */
  lemma TickKeepsRoomInvariant(sqrt: real -> real, r: RoomState)
    requires IsSqrt(sqrt) && RoomInvariant(r)
    ensures RoomInvariant(Ticked(sqrt, r))
  {
    GatherKeepsRolesUnique(r.players);
    if r.sim.state == Playing {
      TickKeepsInvariant(sqrt, r.sim, TICK_DT, EntityTeacherInput(TeacherSlots(r.players)),
                         EntityPupilInput(PupilSlots(r.players)), Layout());
    }
  }

  // ---------------------------------------------------------------- the server

  /**
   * The gather loop of gameTick, over the players in any order: the two
   * slot maps, and the players with each pupil's button state remembered.
   */
  method Gather(players: Players)
    returns (teacherInputs: map<int, Teachers.TeacherInput>, pupilInputs: map<int, Pupils.PupilInput>,
             gathered: Players)
    requires RolesUnique(players)
    ensures teacherInputs == TeacherSlots(players) && pupilInputs == PupilSlots(players)
    ensures gathered == Gathered(players)
  {
    gathered := players;
    PartlyGatheredAll(players);
    var remaining := players.Keys;
    teacherInputs := map[];
    pupilInputs := map[];
    while remaining != {}
      invariant remaining <= players.Keys
      invariant gathered == PartlyGathered(players, players.Keys - remaining)
      invariant teacherInputs == TeamSlots(players, players.Keys - remaining, TeacherTeam, TeacherInputOf)
      invariant pupilInputs == TeamSlots(players, players.Keys - remaining, PupilTeam, PupilInputOf)
      decreases remaining
    {
      var id :| id in remaining;
      var player := players[id];
      var team := RoleTeam(player.role);
      var slot := RoleSlot(player.role);
      TeamSlotsStep(players, players.Keys - remaining, id, TeacherTeam, TeacherInputOf);
      TeamSlotsStep(players, players.Keys - remaining, id, PupilTeam, PupilInputOf);
      PartlyGatheredStep(players, players.Keys - remaining, id);
      assert players.Keys - remaining + {id} == players.Keys - (remaining - {id});
      if team == Some(TeacherTeam) {
        teacherInputs := teacherInputs[slot := TeacherInputOf(player)];
      } else if team == Some(PupilTeam) {
        pupilInputs := pupilInputs[slot := PupilInputOf(player)];
        gathered := gathered[id := player.(prevClick := IsDown(player))];
      }
      remaining := remaining - {id};
    }
    assert players.Keys - remaining == players.Keys;
    PartlyGatheredAll(players);
  }

  /** The gather loop, and the input each entity reads from the slot maps. */
  method GatherInputs(players: Players)
    returns (teacherInput: Teachers.TeacherInput, pupilInput: Pupils.PupilInput, gathered: Players)
    requires RolesUnique(players)
    ensures teacherInput == EntityTeacherInput(TeacherSlots(players))
    ensures pupilInput == EntityPupilInput(PupilSlots(players))
    ensures gathered == Gathered(players)
  {
    var teacherInputs, pupilInputs;
    teacherInputs, pupilInputs, gathered := Gather(players);
    teacherInput := EntityTeacherInput(teacherInputs);
    pupilInput := EntityPupilInput(pupilInputs);
  }

  /** RecessRevengeServer. */
  class RoomServer {
    const simulation: GameSimulation
    var players: Players
    /** Whether gameLoopInterval is set. */
    var gameLoop: bool
    /** Whether countdownInterval is set, and its closure's count. */
    var countdownRunning: bool
    var countdown: int
    /** Every connection.send and room.broadcast so far. */
    var outbox: seq<Outgoing>

    function State(): RoomState
      reads this, simulation, simulation.teacher, simulation.pupil, simulation.ids, simulation.projectiles
    {
      RoomState(simulation.State(), players, gameLoop, countdownRunning, countdown, outbox)
    }

    predicate Valid()
      reads this, simulation, simulation.teacher, simulation.pupil, simulation.ids, simulation.projectiles
    {
      RoomInvariant(State()) && simulation.obstacles == Layout()
    }

    constructor (ids: Projectiles.IdCounter)
      ensures State() == Opened(ids.next) && Valid()
    {
      simulation := new GameSimulation(ids);
      players := map[];
      gameLoop := false;
      countdownRunning := false;
      countdown := 0;
      outbox := [];
      new;
      OpenedIsValid(ids.next);
    }

    method OnConnect(id: ConnId)
      requires Valid()
      modifies this
      ensures State() == Connected(old(State()), id) && Valid()
    {
      ghost var r0 := State();
      NewPlayerKeepsRolesUnique(players, id);
      SetPlayers(players[id := NewPlayer]);
      Emit(SendTo(id, RoleMessage(id)));
      Emit(SendTo(id, InitMessage(simulation.obstacles)));
      BroadcastLobbyState();
      ConnectKeepsInvariant(r0, id);
    }

    method OnMessage(id: ConnId, message: ClientMessage)
      requires Valid()
      modifies this, simulation
      ensures State() == MessageHandled(old(State()), id, message) && Valid()
    {
      ghost var r0 := State();
      if id !in players {
        return;
      }
      match message {
        case SelectRole(name) => SelectRole(id, name);
        case Start =>
          if simulation.state == Lobby && HasAllPlayers(players) {
            StartCountdown();
          }
        case InputMessage(input) => SetPlayers(players[id := players[id].(lastInput := input)]);
        case Restart => Restart();
        case Unhandled =>
      }
      MessageKeepsInvariant(r0, id, message);
    }

    method SelectRole(id: ConnId, name: string)
      requires RolesUnique(players) && id in players
      modifies this
      ensures State() == RoleSelected(old(State()), id, name)
    {
      if simulation.state != Lobby {
        return;
      }
      var requested := ParseRole(name);
      if requested.None? {
        return;
      }
      var taken := exists other :: other in players && other != id && players[other].role == requested.value;
      if taken {
        return;
      }
      ClaimKeepsRolesUnique(players, id, requested.value);
      SetPlayers(players[id := players[id].(role := requested.value)]);
      BroadcastLobbyState();
    }

    method Restart()
      modifies this, simulation
      ensures State() == Restarted(old(State()))
    {
      if simulation.state != GameOver {
        return;
      }
      simulation.ReturnToLobby();
      SetPlayers(map id | id in players :: NewPlayer);
      BroadcastLobbyState();
    }

    method OnClose(id: ConnId)
      requires Valid()
      modifies this, simulation
      ensures State() == Closed(old(State()), id) && Valid()
    {
      ghost var r0 := State();
      var player := if id in players then Some(players[id]) else None;
      RemovalKeepsRolesUnique(players, id);
      SetPlayers(players - {id});
      ghost var pre := r0.(players := r0.players - {id});
      if player.Some? && player.value.role != Unassigned {
        if simulation.state == Playing {
          Abandon(player.value.role);
          pre := Abandoned(pre, player.value.role);
        }
        CancelCountdown();
        pre := pre.(countdownRunning := false);
      }
      assert State() == pre;
      BroadcastLobbyState();
      CloseKeepsInvariant(r0, id);
    }

    method Abandon(role: Role)
      requires role != Unassigned
      modifies this, simulation
      ensures State() == Abandoned(old(State()), role)
    {
      StopGameLoop();
      simulation.ReturnToLobby();
      Emit(Broadcast(DisconnectedMessage(role, RoleTeam(role).value)));
    }

    method BroadcastLobbyState()
      requires RolesUnique(players)
      modifies this
      ensures State() == WithLobby(old(State()))
    {
      outbox := outbox + [Broadcast(LobbyMessage(LobbyOf(players)))];
    }

    method StartCountdown()
      modifies this
      ensures State() == CountdownStarted(old(State()))
    {
      if countdownRunning {
        return;
      }
      countdown := COUNTDOWN_START;
      outbox := outbox + [Broadcast(CountdownMessage(countdown))];
      countdownRunning := true;
    }

    /** One firing of the countdown interval, which fires only while it is set. */
    method CountdownStep()
      requires Valid() && countdownRunning
      modifies this, simulation
      ensures State() == CountdownStepped(old(State())) && Valid()
    {
      ghost var r0 := State();
      countdown := countdown - 1;
      if countdown > 0 {
        Emit(Broadcast(CountdownMessage(countdown)));
      } else {
        countdownRunning := false;
        StartGame();
      }
      CountdownKeepsInvariant(r0);
    }

    method StartGame()
      modifies this, simulation
      ensures State() == GameStarted(old(State()))
    {
      var teacherCount := TeamCount(players, TeacherTeam);
      var pupilCount := TeamCount(players, PupilTeam);
      simulation.StartGame();
      outbox := outbox + [Broadcast(StartMessage(teacherCount, pupilCount))];
      StartGameLoop();
    }

    method StartGameLoop()
      modifies this
      ensures State() == LoopStarted(old(State()))
    {
      if gameLoop {
        return;
      }
      gameLoop := true;
    }

    method StopGameLoop()
      modifies this
      ensures State() == LoopStopped(old(State()))
    {
      gameLoop := false;
    }

    /** One firing of the game loop interval. */
    method GameTick(sqrt: real -> real)
      requires IsSqrt(sqrt) && Valid()
      modifies this, simulation, simulation.teacher, simulation.pupil, simulation.ids, simulation.projectiles
      ensures State() == Ticked(sqrt, old(State())) && Valid()
    {
      ghost var r0 := State();
      if simulation.state != Playing {
        StopGameLoop();
        TickKeepsRoomInvariant(sqrt, r0);
        return;
      }
      PlayTick(sqrt);
      TickKeepsRoomInvariant(sqrt, r0);
    }

    /** gameTick in a round in play. */
    method PlayTick(sqrt: real -> real)
      requires IsSqrt(sqrt) && Valid() && simulation.state == Playing
      modifies this, simulation, simulation.teacher, simulation.pupil, simulation.ids, simulation.projectiles
      ensures State() == Played(sqrt, old(State()))
    {
      var teacherInput, pupilInput, gathered := GatherInputs(players);
      SetPlayers(gathered);
      var data := StepSimulation(sqrt, teacherInput, pupilInput);
      Emit(Broadcast(StateMessage(data)));
      if simulation.state == GameOver {
        StopGameLoop();
      }
    }

    /** simulation.update for one tick, then simulation.serialize. */
    method StepSimulation(sqrt: real -> real, teacherInput: Teachers.TeacherInput, pupilInput: Pupils.PupilInput)
      returns (data: Snapshot)
      requires IsSqrt(sqrt) && SimInvariant(State().sim) && simulation.obstacles == Layout()
      modifies simulation, simulation.teacher, simulation.pupil, simulation.ids, simulation.projectiles
      ensures (data, State()) == (var out := Serialized(Tick(sqrt, old(State()).sim, TICK_DT, teacherInput,
                                                              pupilInput, Layout()));
                                  (out.0, old(State()).(sim := out.1)))
    {
      simulation.Update(sqrt, TICK_DT, teacherInput, pupilInput);
      data := simulation.Serialize();
    }

    /** A write to the players map or to one player's record. */
    method SetPlayers(ps: Players)
      modifies this
      ensures State() == old(State()).(players := ps)
    {
      players := ps;
    }

    /** clearInterval of the countdown. */
    method CancelCountdown()
      modifies this
      ensures State() == old(State()).(countdownRunning := false)
    {
      countdownRunning := false;
    }

    /** connection.send or room.broadcast: the message joins the outbox. */
    method Emit(message: Outgoing)
      modifies this
      ensures State() == old(State()).(outbox := old(outbox) + [message])
    {
      outbox := outbox + [message];
    }
  }
}
