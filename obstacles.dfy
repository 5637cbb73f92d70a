/**
 * The playground's obstacles and the deterministic layout every round uses
 * (createObstacleLayout in src/shared/simulation.js).  The chicken coop goes
 * in first, unchecked; every later candidate is kept only when it lies in the
 * play area and keeps clear of everything placed before it.
 */
module Obstacles {
  import opened Config
  import opened Geometry

  datatype ObstacleType = Bush | Bench | Tree | SwingSet | ChickenCoop

  datatype Obstacle = Obstacle(kind: ObstacleType, x: real, y: real,
                               width: real, height: real, canHide: bool)

  /** The first two tests of isValidPosition: 200 px from the sides, 50 px from top and bottom. */
  predicate InPlayArea(x: real, y: real, w: real, h: real) {
    !(x < 200.0 || x + w > WIDTH - 200.0) && !(y < 50.0 || y + h > HEIGHT - 50.0)
  }

  /** The box (x, y, w, h) is strictly apart from `o`; touching edges count as overlap. */
  predicate Separated(x: real, y: real, w: real, h: real, o: Obstacle) {
    x + w < o.x || x > o.x + o.width || y + h < o.y || y > o.y + o.height
  }

  predicate ValidPosition(placed: seq<Obstacle>, x: real, y: real, w: real, h: real) {
    InPlayArea(x, y, w, h) && forall i :: 0 <= i < |placed| ==> Separated(x, y, w, h, placed[i])
  }

  predicate Fits(placed: seq<Obstacle>, c: Obstacle) {
    ValidPosition(placed, c.x, c.y, c.width, c.height)
  }

  /** isValidPosition: the bounds tests, then a scan that stops at the first overlap. */
  method IsValidPosition(placed: seq<Obstacle>, x: real, y: real, w: real, h: real)
    returns (valid: bool)
    ensures valid <==> ValidPosition(placed, x, y, w, h)
  {
    if x < 200.0 || x + w > WIDTH - 200.0 {
      return false;
    }
    if y < 50.0 || y + h > HEIGHT - 50.0 {
      return false;
    }
    for i := 0 to |placed|
      invariant forall k :: 0 <= k < i ==> Separated(x, y, w, h, placed[k])
    {
      var obs := placed[i];
      if !(x + w < obs.x || x > obs.x + obs.width || y + h < obs.y || y > obs.y + obs.height) {
        return false;
      }
    }
    return true;
  }

  /** The obstacle of the given kind at (x, y), with the configured size; only bushes hide. */
  function Piece(kind: ObstacleType, x: real, y: real): (o: Obstacle)
    ensures o.kind == kind && o.x == x && o.y == y
    ensures o.canHide <==> kind == Bush
    ensures 0.0 < o.width && 0.0 < o.height
  {
    match kind
    case Bush => Obstacle(Bush, x, y, BUSH_WIDTH, BUSH_HEIGHT, BUSH_CAN_HIDE)
    case Bench => Obstacle(Bench, x, y, BENCH_WIDTH, BENCH_HEIGHT, false)
    case Tree => Obstacle(Tree, x, y, TREE_WIDTH, TREE_HEIGHT, false)
    case SwingSet => Obstacle(SwingSet, x, y, SWING_SET_WIDTH, SWING_SET_HEIGHT, false)
    case ChickenCoop => Obstacle(ChickenCoop, x, y, CHICKEN_COOP_WIDTH, CHICKEN_COOP_HEIGHT, false)
  }

  /** The coop, top centre. */
  const Coop: Obstacle := Piece(ChickenCoop, WIDTH / 2.0 - CHICKEN_COOP_WIDTH / 2.0, 20.0)

  const BushPositions: seq<Vec> :=
    [Vec(350.0, 200.0), Vec(600.0, 400.0), Vec(450.0, 550.0), Vec(800.0, 150.0), Vec(700.0, 500.0)]
  const BenchPositions: seq<Vec> := [Vec(400.0, 350.0), Vec(650.0, 250.0), Vec(500.0, 150.0)]
  const TreePositions: seq<Vec> := [Vec(300.0, 450.0), Vec(850.0, 350.0), Vec(550.0, 80.0)]
  const SwingPosition: Vec := Vec(750.0, 500.0)

  function Pieces(kind: ObstacleType, positions: seq<Vec>): (ps: seq<Obstacle>)
    ensures |ps| == |positions|
    ensures forall i :: 0 <= i < |ps| ==> ps[i] == Piece(kind, positions[i].x, positions[i].y)
  {
    seq(|positions|, i requires 0 <= i < |positions| => Piece(kind, positions[i].x, positions[i].y))
  }

  /** Every candidate after the coop, in the order the source tries them. */
  function Candidates(): seq<Obstacle> {
    Pieces(Bush, BushPositions) + Pieces(Bench, BenchPositions) + Pieces(Tree, TreePositions)
      + [Piece(SwingSet, SwingPosition.x, SwingPosition.y)]
  }

  /** One greedy step: keep `c` when it fits among what is already placed. */
  function Place(placed: seq<Obstacle>, c: Obstacle): seq<Obstacle> {
    if Fits(placed, c) then placed + [c] else placed
  }

  /** Try the candidates in order. */
  function PlaceAll(placed: seq<Obstacle>, cs: seq<Obstacle>): seq<Obstacle>
    decreases |cs|
  {
    if |cs| == 0 then placed else Place(PlaceAll(placed, cs[..|cs| - 1]), cs[|cs| - 1])
  }

  /** The layout every game uses. */
  function Layout(): seq<Obstacle> {
    PlaceAll([Coop], Candidates())
  }

  /** One loop of createObstacleLayout over the positions of one kind. */
  method PlaceKind(placed: seq<Obstacle>, kind: ObstacleType, positions: seq<Vec>)
    returns (result: seq<Obstacle>)
    ensures result == PlaceAll(placed, Pieces(kind, positions))
  {
    result := placed;
    for i := 0 to |positions|
      invariant result == PlaceAll(placed, Pieces(kind, positions[..i]))
    {
      var pos := positions[i];
      var valid := IsValidPosition(result, pos.x, pos.y, Piece(kind, pos.x, pos.y).width,
                                   Piece(kind, pos.x, pos.y).height);
      assert Pieces(kind, positions[..i + 1])[..i] == Pieces(kind, positions[..i]);
      if valid {
        result := result + [Piece(kind, pos.x, pos.y)];
      }
    }
    assert positions[..|positions|] == positions;
  }

  /** createObstacleLayout */
  method CreateObstacleLayout() returns (obstacles: seq<Obstacle>)
    ensures obstacles == Layout()
  {
    obstacles := [Coop];
    obstacles := PlaceKind(obstacles, Bush, BushPositions);
    obstacles := PlaceKind(obstacles, Bench, BenchPositions);
    obstacles := PlaceKind(obstacles, Tree, TreePositions);
    var swing := Piece(SwingSet, SwingPosition.x, SwingPosition.y);
    var valid := IsValidPosition(obstacles, swing.x, swing.y, swing.width, swing.height);
    if valid {
      obstacles := obstacles + [swing];
    }
    PlaceAllAppend([Coop], Pieces(Bush, BushPositions), Pieces(Bench, BenchPositions));
    PlaceAllAppend([Coop], Pieces(Bush, BushPositions) + Pieces(Bench, BenchPositions),
                   Pieces(Tree, TreePositions));
    PlaceAllAppend([Coop], Pieces(Bush, BushPositions) + Pieces(Bench, BenchPositions)
                             + Pieces(Tree, TreePositions), [swing]);
  }

  /** Trying xs and then ys is trying xs + ys. */
  lemma {:induction false} PlaceAllAppend(placed: seq<Obstacle>, xs: seq<Obstacle>, ys: seq<Obstacle>)
    ensures PlaceAll(PlaceAll(placed, xs), ys) == PlaceAll(placed, xs + ys)
    decreases |ys|
  {
    if |ys| == 0 {
      assert xs + ys == xs;
    } else {
      PlaceAllAppend(placed, xs, ys[..|ys| - 1]);
      assert (xs + ys)[..|xs + ys| - 1] == xs + ys[..|ys| - 1];
    }
  }

  /** No obstacle from index `from` on overlaps one placed before it, and all of them are in the play area. */
  predicate CheckedFrom(obs: seq<Obstacle>, from: nat) {
    forall j :: from <= j < |obs| ==>
      InPlayArea(obs[j].x, obs[j].y, obs[j].width, obs[j].height) &&
      forall i :: 0 <= i < j ==> Separated(obs[j].x, obs[j].y, obs[j].width, obs[j].height, obs[i])
  }

  /**
   * The greedy placement keeps what was placed before, adds only candidates,
   * and every obstacle it adds passed the validity test against all earlier ones.
   */
  lemma {:induction false} PlaceAllChecked(placed: seq<Obstacle>, cs: seq<Obstacle>)
    ensures |placed| <= |PlaceAll(placed, cs)| <= |placed| + |cs|
    ensures PlaceAll(placed, cs)[..|placed|] == placed
    ensures CheckedFrom(PlaceAll(placed, cs), |placed|)
    ensures forall j :: |placed| <= j < |PlaceAll(placed, cs)| ==> PlaceAll(placed, cs)[j] in cs
    decreases |cs|
  {
    if |cs| > 0 {
      var before := PlaceAll(placed, cs[..|cs| - 1]);
      PlaceAllChecked(placed, cs[..|cs| - 1]);
      var c := cs[|cs| - 1];
      if Fits(before, c) {
        var after := before + [c];
        assert after[..|placed|] == before[..|placed|];
        forall j | |placed| <= j < |after|
          ensures after[j] in cs
        {
          if j < |before| {
            assert after[j] == before[j];
            assert before[j] in cs[..|cs| - 1];
          }
        }
      } else {
        forall j | |placed| <= j < |before|
          ensures before[j] in cs
        {
          assert before[j] in cs[..|cs| - 1];
        }
      }
    }
  }

  /**
   * The layout starts with the coop; every other obstacle lies in the play
   * area, keeps clear of every obstacle placed before it, and is one of the
   * candidates.
   */
  lemma LayoutIsValid()
    ensures |Layout()| >= 1 && Layout()[0] == Coop
    ensures CheckedFrom(Layout(), 1)
    ensures forall j :: 1 <= j < |Layout()| ==> Layout()[j] in Candidates()
  {
    PlaceAllChecked([Coop], Candidates());
    assert Layout()[..1] == [Coop];
  }

  /** The coop itself would fail the validity test: it is placed without one (y = 20 < 50). */
  lemma CoopIsUnchecked()
    ensures Layout()[0] == Coop
    ensures !InPlayArea(Coop.x, Coop.y, Coop.width, Coop.height)
  {
    LayoutIsValid();
  }

  /** When every candidate fits beside the ones before it, the greedy placement keeps them all. */
  lemma {:induction false} AllFit(init: seq<Obstacle>, cs: seq<Obstacle>)
    requires forall k :: 0 <= k < |cs| ==> Fits(init + cs[..k], cs[k])
    ensures PlaceAll(init, cs) == init + cs
    decreases |cs|
  {
    if |cs| > 0 {
      var front := cs[..|cs| - 1];
      forall k | 0 <= k < |front|
        ensures Fits(init + front[..k], front[k])
      {
        assert front[..k] == cs[..k];
      }
      AllFit(init, front);
      assert front == cs[..|cs| - 1][..|cs| - 1];
      assert init + front + [cs[|cs| - 1]] == init + cs;
    }
  }

  /** The candidates written out with their configured sizes. */
  lemma CandidatesWrittenOut()
    ensures Coop == Obstacle(ChickenCoop, 644.0, 20.0, 120.0, 115.0, false)
    ensures Candidates() == [
      Obstacle(Bush, 350.0, 200.0, 60.0, 60.0, true),
      Obstacle(Bush, 600.0, 400.0, 60.0, 60.0, true),
      Obstacle(Bush, 450.0, 550.0, 60.0, 60.0, true),
      Obstacle(Bush, 800.0, 150.0, 60.0, 60.0, true),
      Obstacle(Bush, 700.0, 500.0, 60.0, 60.0, true),
      Obstacle(Bench, 400.0, 350.0, 80.0, 40.0, false),
      Obstacle(Bench, 650.0, 250.0, 80.0, 40.0, false),
      Obstacle(Bench, 500.0, 150.0, 80.0, 40.0, false),
      Obstacle(Tree, 300.0, 450.0, 50.0, 80.0, false),
      Obstacle(Tree, 850.0, 350.0, 50.0, 80.0, false),
      Obstacle(Tree, 550.0, 80.0, 50.0, 80.0, false),
      Obstacle(SwingSet, 750.0, 500.0, 100.0, 120.0, false)]
  {
  }

  /**
   * With the configured sizes the first ten candidates all fit, the third
   * tree (550, 80) touches the bench at (500, 150) and the swing set touches
   * the bush at (700, 500): the layout is the coop, five bushes, three
   * benches and two trees.
   */
  lemma LayoutContents()
    ensures Layout() == [Coop] + Candidates()[..10]
    ensures |Layout()| == 11
  {
    CandidatesWrittenOut();
    var cs := Candidates();
    var kept := cs[..10];
    forall k | 0 <= k < 10
      ensures Fits([Coop] + kept[..k], kept[k])
    {
      if k < 4 {
        BushesFit(k);
      } else if k < 7 {
        LaterBushesAndBenchesFit(k);
      } else {
        BenchAndTreesFit(k);
      }
    }
    AllFit([Coop], kept);
    assert cs[..11][..10] == kept;
    assert !Separated(cs[10].x, cs[10].y, cs[10].width, cs[10].height, ([Coop] + kept)[8]);
    assert PlaceAll([Coop], cs[..11]) == [Coop] + kept;
    assert cs[..12][..11] == cs[..11];
    assert !Separated(cs[11].x, cs[11].y, cs[11].width, cs[11].height, ([Coop] + kept)[5]);
    assert cs[..12] == cs;
  }

  /** The first four bushes fit beside the coop and each other. */
  lemma BushesFit(k: nat)
    requires k < 4
    ensures Fits([Coop] + Candidates()[..10][..k], Candidates()[k])
  {
    CandidatesWrittenOut();
    var cs := Candidates();
    assert cs[..10][..k] == cs[..k];
    if k == 0 { assert Fits([Coop] + cs[..0], cs[0]); }
    else if k == 1 { assert Fits([Coop] + cs[..1], cs[1]); }
    else if k == 2 { assert Fits([Coop] + cs[..2], cs[2]); }
    else if k == 3 { assert Fits([Coop] + cs[..3], cs[3]); }
  }

  /** The fifth bush and the first two benches fit. */
  lemma LaterBushesAndBenchesFit(k: nat)
    requires 4 <= k < 7
    ensures Fits([Coop] + Candidates()[..10][..k], Candidates()[k])
  {
    CandidatesWrittenOut();
    var cs := Candidates();
    assert cs[..10][..k] == cs[..k];
    if k == 4 { assert Fits([Coop] + cs[..4], cs[4]); }
    else if k == 5 { assert Fits([Coop] + cs[..5], cs[5]); }
    else if k == 6 { assert Fits([Coop] + cs[..6], cs[6]); }
  }

  /** The third bench and the first two trees fit. */
  lemma BenchAndTreesFit(k: nat)
    requires 7 <= k < 10
    ensures Fits([Coop] + Candidates()[..10][..k], Candidates()[k])
  {
    CandidatesWrittenOut();
    var cs := Candidates();
    assert cs[..10][..k] == cs[..k];
    if k == 7 { assert Fits([Coop] + cs[..7], cs[7]); }
    else if k == 8 { assert Fits([Coop] + cs[..8], cs[8]); }
    else if k == 9 { assert Fits([Coop] + cs[..9], cs[9]); }
  }
}
