/**
 * The client's snapshot buffer (src/client/interpolation.js).  Server
 * snapshots arrive with the client's clock reading; at most four are kept,
 * oldest dropped first.  A render asks for the state 60 ms in the past:
 * the first pair of neighbouring snapshots whose later time is past that
 * render time is blended, positions by linear interpolation and everything
 * else from the later snapshot.  The clock (Date.now) is a parameter.
 */
module Interpolation {
  import opened Wrappers
  import opened Geometry
  import opened Simulation

  /** maxBuffer: the number of snapshots kept. */
  const MAX_BUFFER: nat := 4
  /** renderDelay, in milliseconds behind the newest clock reading. */
  const RENDER_DELAY: int := 60

  /** One buffered entry { state, time }, with the time in milliseconds. */
  datatype Timed = Timed(state: Snapshot, time: int)

  // ---------------------------------------------------------------- the buffer

  /** The newest MAX_BUFFER entries of a run of arrivals, in arrival order. */
  function Window(entries: seq<Timed>): seq<Timed> {
    if |entries| <= MAX_BUFFER then entries else entries[|entries| - MAX_BUFFER..]
  }

  /** addState on values: push the entry, then shift once if the buffer overflows. */
  function Buffered(states: seq<Timed>, entry: Timed): (r: seq<Timed>)
    ensures |states| <= MAX_BUFFER ==> r == Window(states + [entry])
  {
    var pushed := states + [entry];
    if |pushed| > MAX_BUFFER then pushed[1..] else pushed
  }

  /** The buffer after a run of addState calls. */
  function Fed(states: seq<Timed>, entries: seq<Timed>): seq<Timed>
    decreases |entries|
  {
    if |entries| == 0 then states else Fed(Buffered(states, entries[0]), entries[1..])
  }

  /** Keeping the newest of the newest is keeping the newest. */
  lemma WindowOfWindow(xs: seq<Timed>, ys: seq<Timed>)
    ensures Window(Window(xs) + ys) == Window(xs + ys)
  {
    var w := Window(xs);
    var zs := xs + ys;
    var m := |xs| - |w|;
    assert w == xs[m..];
    assert w + ys == zs[m..];
  }

  /**
   * Whatever arrives, a buffer that starts within its bound holds exactly
   * the newest four entries of everything it has seen, in arrival order.
   */
  lemma {:induction false} BufferKeepsTheNewest(states: seq<Timed>, entries: seq<Timed>)
    requires |states| <= MAX_BUFFER
    ensures Fed(states, entries) == Window(states + entries)
    ensures |Fed(states, entries)| <= MAX_BUFFER
    decreases |entries|
  {
    if |entries| == 0 {
      assert states + entries == states;
    } else {
      var next := Buffered(states, entries[0]);
      BufferKeepsTheNewest(next, entries[1..]);
      WindowOfWindow(states + [entries[0]], entries[1..]);
      assert states + [entries[0]] + entries[1..] == states + entries;
    }
  }

  /** One arrival: the entry goes last, and the oldest leaves only when the buffer is full. */
  lemma AddStateRules(states: seq<Timed>, entry: Timed)
    requires |states| <= MAX_BUFFER
    ensures var r := Buffered(states, entry);
            |r| <= MAX_BUFFER && r[|r| - 1] == entry &&
            (|states| < MAX_BUFFER ==> r == states + [entry]) &&
            (|states| == MAX_BUFFER ==> r == states[1..] + [entry])
  {
  }

  // ---------------------------------------------------------------- the bracket search

  /**
   * The first index from `from` on whose time is past the render time, or
   * None when every remaining entry is at or before it.
   */
  function FirstAfter(states: seq<Timed>, renderTime: int, from: nat): (r: Option<nat>)
    requires from <= |states|
    ensures r.Some? ==> from <= r.value < |states| && states[r.value].time > renderTime &&
                        forall j :: from <= j < r.value ==> states[j].time <= renderTime
    ensures r.None? ==> forall j :: from <= j < |states| ==> states[j].time <= renderTime
    decreases |states| - from
  {
    if from == |states| then None
    else if states[from].time > renderTime then Some(from)
    else FirstAfter(states, renderTime, from + 1)
  }

  /** The blend factor, the elapsed fraction of the pair's interval clamped to [0, 1]. */
  function BlendFactor(renderTime: int, aTime: int, bTime: int): (t: real)
    requires aTime != bTime
    ensures 0.0 <= t <= 1.0
    ensures var f := (renderTime - aTime) as real / (bTime - aTime) as real;
            (0.0 <= f <= 1.0 ==> t == f) && (f < 0.0 ==> t == 0.0) && (1.0 < f ==> t == 1.0)
  {
    Clamp((renderTime - aTime) as real / (bTime - aTime) as real, 0.0, 1.0)
  }

  /** The state a bracketing pair renders: B itself when the times agree, else the blend. */
  function Blended(a: Timed, b: Timed, renderTime: int): Snapshot {
    if b.time - a.time == 0 then b.state
    else Interpolate(a.state, b.state, BlendFactor(renderTime, a.time, b.time))
  }

  /** getState at clock reading `now`. */
  function StateAt(states: seq<Timed>, now: int): Option<Snapshot> {
    if |states| == 0 then None
    else if |states| == 1 then Some(states[0].state)
    else
      var renderTime := now - RENDER_DELAY;
      match FirstAfter(states, renderTime, 1)
      case None => Some(states[|states| - 1].state)
      case Some(i) => Some(Blended(states[i - 1], states[i], renderTime))
  }

  /**
   * getState: nothing from an empty buffer, the sole entry as it is, the
   * newest entry as it is when no later entry is past the render time, and
   * otherwise the blend of the first entry past it with its predecessor.
   */
  lemma GetStateRules(states: seq<Timed>, now: int)
    ensures |states| == 0 ==> StateAt(states, now) == None
    ensures |states| == 1 ==> StateAt(states, now) == Some(states[0].state)
    ensures |states| >= 2 && (forall j :: 1 <= j < |states| ==> states[j].time <= now - RENDER_DELAY) ==>
              StateAt(states, now) == Some(states[|states| - 1].state)
    ensures forall i :: 1 <= i < |states| && states[i].time > now - RENDER_DELAY &&
                        (forall j :: 1 <= j < i ==> states[j].time <= now - RENDER_DELAY) ==>
              StateAt(states, now) == Some(Blended(states[i - 1], states[i], now - RENDER_DELAY))
  {
    if |states| >= 2 {
      var first := FirstAfter(states, now - RENDER_DELAY, 1);
      forall i | 1 <= i < |states| && states[i].time > now - RENDER_DELAY &&
                 (forall j :: 1 <= j < i ==> states[j].time <= now - RENDER_DELAY)
        ensures first == Some(i)
      {
        if first.Some? {
          assert !(first.value < i) && !(i < first.value);
        }
      }
    }
  }

  /** A pair with equal times renders B verbatim. */
  lemma EqualTimesRenderB(a: Timed, b: Timed, renderTime: int)
    requires a.time == b.time
    ensures Blended(a, b, renderTime) == b.state
  {
  }

  // ---------------------------------------------------------------- interpolate

  /** The first egg of a snapshot with the given id, as Array.find does. */
  function FindEgg(eggs: seq<EggView>, id: nat): (r: Option<EggView>)
    ensures r.Some? ==> exists i :: 0 <= i < |eggs| && eggs[i] == r.value && r.value.id == id &&
                                    forall k :: 0 <= k < i ==> eggs[k].id != id
    ensures r.None? ==> forall e :: e in eggs ==> e.id != id
  {
    if |eggs| == 0 then None
    else if eggs[0].id == id then Some(eggs[0])
    else
      var rest := FindEgg(eggs[1..], id);
      assert forall i :: 1 <= i < |eggs| ==> eggs[i] == eggs[1..][i - 1];
      rest
  }

  /** One of B's eggs: moved along from A's egg of the same id, or left where B has it. */
  function LerpedEgg(from: seq<EggView>, egg: EggView, t: real): EggView {
    match FindEgg(from, egg.id)
    case None => egg
    case Some(e) => egg.(x := Lerp(e.x, egg.x, t), y := Lerp(e.y, egg.y, t))
  }

  /** interpolate: a copy of B with the positional fields blended from A. */
  function Interpolate(a: Snapshot, b: Snapshot, t: real): Snapshot {
    var teacher :=
      if a.teacher.Some? && b.teacher.Some? then
        Some(b.teacher.value.(x := Lerp(a.teacher.value.x, b.teacher.value.x, t),
                              y := Lerp(a.teacher.value.y, b.teacher.value.y, t)))
      else b.teacher;
    var pupil :=
      if a.pupil.Some? && b.pupil.Some? then
        Some(b.pupil.value.(crossX := Lerp(a.pupil.value.crossX, b.pupil.value.crossX, t),
                            crossY := Lerp(a.pupil.value.crossY, b.pupil.value.crossY, t)))
      else b.pupil;
    var eggs := seq(|b.projectiles|, i requires 0 <= i < |b.projectiles| => LerpedEgg(a.projectiles, b.projectiles[i], t));
    b.(teacher := teacher, pupil := pupil, projectiles := eggs)
  }

  /**
   * What a blend keeps: every field but the positions comes from B; the
   * teacher and the crosshair move only when both snapshots have them; the
   * eggs are B's, in B's order, each moved from A's egg of the same id when
   * A has one and left where B has it otherwise.
   */
  lemma InterpolateRules(a: Snapshot, b: Snapshot, t: real)
    ensures var r := Interpolate(a, b, t);
            r.tick == b.tick && r.gameState == b.gameState && r.winner == b.winner &&
            r.time == b.time && r.events == b.events &&
            r.teacher.Some? == b.teacher.Some? && r.pupil.Some? == b.pupil.Some? &&
            (a.teacher.Some? && b.teacher.Some? ==>
               r.teacher.value == b.teacher.value.(x := Lerp(a.teacher.value.x, b.teacher.value.x, t),
                                                   y := Lerp(a.teacher.value.y, b.teacher.value.y, t))) &&
            (a.teacher.None? ==> r.teacher == b.teacher) &&
            (a.pupil.Some? && b.pupil.Some? ==>
               r.pupil.value == b.pupil.value.(crossX := Lerp(a.pupil.value.crossX, b.pupil.value.crossX, t),
                                               crossY := Lerp(a.pupil.value.crossY, b.pupil.value.crossY, t))) &&
            (a.pupil.None? ==> r.pupil == b.pupil) &&
            |r.projectiles| == |b.projectiles|
    ensures var r := Interpolate(a, b, t);
            forall i :: 0 <= i < |b.projectiles| ==>
              var egg := b.projectiles[i];
              r.projectiles[i].id == egg.id &&
              r.projectiles[i] == egg.(x := r.projectiles[i].x, y := r.projectiles[i].y) &&
              ((forall e :: e in a.projectiles ==> e.id != egg.id) ==> r.projectiles[i] == egg) &&
              (exists e :: e in a.projectiles && e.id == egg.id &&
                           r.projectiles[i].x == Lerp(e.x, egg.x, t) && r.projectiles[i].y == Lerp(e.y, egg.y, t)) ==
              (exists e :: e in a.projectiles && e.id == egg.id)
  {
    var r := Interpolate(a, b, t);
    forall i | 0 <= i < |b.projectiles|
      ensures var egg := b.projectiles[i];
              (exists e :: e in a.projectiles && e.id == egg.id &&
                           r.projectiles[i].x == Lerp(e.x, egg.x, t) && r.projectiles[i].y == Lerp(e.y, egg.y, t)) ==
              (exists e :: e in a.projectiles && e.id == egg.id)
    {
      var egg := b.projectiles[i];
      var found := FindEgg(a.projectiles, egg.id);
      if found.Some? {
        assert found.value in a.projectiles && found.value.id == egg.id;
      }
    }
  }

  /** At the end of the interval the blend is B itself. */
  lemma InterpolateAtOne(a: Snapshot, b: Snapshot)
    ensures Interpolate(a, b, 1.0) == b
  {
    var r := Interpolate(a, b, 1.0);
    assert r.projectiles == b.projectiles;
  }

  /**
   * A at 1000 ms, B at 1050 ms and a clock reading of 1085 ms render at
   * 1025 ms: the midpoint of the pair.
   */
  lemma MidpointExample(a: Snapshot, b: Snapshot)
    ensures var r := StateAt([Timed(a, 1000), Timed(b, 1050)], 1085);
            r == Some(Interpolate(a, b, 0.5)) &&
            (a.teacher.Some? && b.teacher.Some? ==>
               r.value.teacher.value.x == (a.teacher.value.x + b.teacher.value.x) / 2.0 &&
               r.value.teacher.value.y == (a.teacher.value.y + b.teacher.value.y) / 2.0) &&
            (a.pupil.Some? && b.pupil.Some? ==>
               r.value.pupil.value.crossX == (a.pupil.value.crossX + b.pupil.value.crossX) / 2.0 &&
               r.value.pupil.value.crossY == (a.pupil.value.crossY + b.pupil.value.crossY) / 2.0)
  {
    var states := [Timed(a, 1000), Timed(b, 1050)];
    assert FirstAfter(states, 1025, 1) == Some(1);
    assert BlendFactor(1025, 1000, 1050) == 0.5;
  }

  // ---------------------------------------------------------------- the object

  /** A StateInterpolator: the buffer of timed snapshots. */
  class StateInterpolator {
    var states: seq<Timed>

    /** The buffer never holds more than MAX_BUFFER entries. */
    predicate Valid()
      reads this
    {
      |states| <= MAX_BUFFER
    }

    constructor ()
      ensures states == [] && Valid()
    {
      states := [];
    }

    /** addState with the clock reading `now`. */
    method AddState(state: Snapshot, now: int)
      requires Valid()
      modifies this
      ensures states == Buffered(old(states), Timed(state, now)) && Valid()
    {
      states := states + [Timed(state, now)];
      if |states| > MAX_BUFFER {
        states := states[1..];
      }
    }

    /** getState with the clock reading `now`: the scan for the bracketing pair. */
    method GetState(now: int) returns (r: Option<Snapshot>)
      ensures r == StateAt(states, now)
    {
      if |states| == 0 {
        return None;
      }
      if |states| == 1 {
        return Some(states[0].state);
      }
      var renderTime := now - RENDER_DELAY;
      var a := states[0];
      var b := states[1];
      var i := 1;
      while i < |states|
        invariant 1 <= i < |states|
        invariant forall j :: 1 <= j < i ==> states[j].time <= renderTime
        decreases |states| - i
      {
        if states[i].time > renderTime {
          a := states[i - 1];
          b := states[i];
          break;
        }
        if i == |states| - 1 {
          assert FirstAfter(states, renderTime, 1) == None;
          return Some(states[i].state);
        }
        i := i + 1;
      }
      ghost var first := FirstAfter(states, renderTime, 1);
      assert first.Some? && !(first.value < i) && !(i < first.value);
      var timeDiff := b.time - a.time;
      if timeDiff == 0 {
        return Some(b.state);
      }
      var t := BlendFactor(renderTime, a.time, b.time);
      return Some(Interpolate(a.state, b.state, t));
    }
  }
}
