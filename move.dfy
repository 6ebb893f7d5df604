// A long move (attemptMove): repeated short moves toward the goal, each aimed
// at a waypoint clamped to at most seven tiles ahead, until one of them leaves
// the character where it was. The clamps are modelled as they are written,
// including the three places where they do not do what the symmetric cases
// suggest.
module Move {
  import opened GameTypes
  import opened Terrain
  import opened ShortMove

  /** The waypoint of one round (lines 323-341). Along x a goal 8 or more
      tiles ahead is clamped to 7 ahead and one 8 or more behind to 9 behind;
      along y only a goal more than 8 ahead is clamped, to 7 ahead, and the
      second case tests the x distance, clamping y to 9 behind. A clamped axis
      drops its offset. */
  function NextGoal(at: Location, goal: Location): Location
  {
    var dx, dy := goal.x - at.x, goal.y - at.y;
    var alongX :=
      if dx >= ShortMoveSide then goal.(x := at.x + (ShortMoveSide - 1), offsetX := 0.0)
      else if dx <= -ShortMoveSide then goal.(x := at.x - (ShortMoveSide + 1), offsetX := 0.0)
      else goal;
    if dy > ShortMoveSide then alongX.(y := at.y + (ShortMoveSide - 1), offsetY := 0.0)
    else if dx < -ShortMoveSide then alongX.(y := at.y - (ShortMoveSide + 1), offsetY := 0.0)
    else alongX
  }

  /** Tile distance to the goal, the measure every round shrinks. */
  function TileDistance(at: Location, goal: Location): nat
  {
    Abs(goal.x - at.x) + Abs(goal.y - at.y)
  }

  /** Along each axis, the tile `to` is no farther from the goal than `from`. */
  predicate NoFarther(from: Location, to: Location, goal: Location)
  {
    Abs(goal.x - to.x) <= Abs(goal.x - from.x) && Abs(goal.y - to.y) <= Abs(goal.y - from.y)
  }

  function RealAbs(r: real): real
  {
    if r < 0.0 then -r else r
  }

  /** The signed distances from `at` to `goal` along x and y, offsets included. */
  function GapX(at: Location, goal: Location): real
  {
    FloatsFromLocation(goal).0 - FloatsFromLocation(at).0
  }

  function GapY(at: Location, goal: Location): real
  {
    FloatsFromLocation(goal).1 - FloatsFromLocation(at).1
  }

  /** The short move toward the waypoint panics exactly when the goal is 8 or
      more tiles behind along x or along y, or exactly 8 tiles ahead along y:
      the left clamp overshoots to 9, the down clamp starts above 8, and the
      up clamp looks at x. */
  lemma NextGoalPanics(at: Location, goal: Location)
    ensures ShortMovePanics(at, NextGoal(at, goal)) <==>
      (goal.x - at.x <= -ShortMoveSide || goal.y - at.y <= -ShortMoveSide || goal.y - at.y == ShortMoveSide)
  {
  }

  /** On the goal's tile the waypoint is the goal itself; on another tile it
      is another tile. */
  lemma NextGoalSameTile(at: Location, goal: Location)
    ensures TileOf(NextGoal(at, goal)) == TileOf(at) <==> TileOf(goal) == TileOf(at)
    ensures TileOf(goal) == TileOf(at) ==> NextGoal(at, goal) == goal
  {
  }

  /** A round that can go ahead moves to a waypoint inside the box spanned
      by the position and the goal, strictly nearer in tiles, no farther along
      either axis (tiles or exact coordinates), with offsets that stay
      strictly between -1 and 1. */
  lemma NextGoalStep(at: Location, goal: Location)
    requires TileOf(at) != TileOf(goal) && !ShortMovePanics(at, NextGoal(at, goal))
    ensures var next := NextGoal(at, goal);
      InBox(TileOf(next), TileOf(at), TileOf(goal)) &&
      TileDistance(next, goal) < TileDistance(at, goal) &&
      Abs(goal.x - next.x) <= Abs(goal.x - at.x) && Abs(goal.y - next.y) <= Abs(goal.y - at.y) &&
      (OffsetsFractional(at) && OffsetsFractional(goal) ==>
        OffsetsFractional(next) &&
        RealAbs(GapX(next, goal)) <= RealAbs(GapX(at, goal)) &&
        RealAbs(GapY(next, goal)) <= RealAbs(GapY(at, goal)))
  {
    NextGoalPanics(at, goal);
  }

  /** Whether following the waypoints without obstruction ends in a panic:
      the reference for what attemptMove does on a clear route. */
  function RoutePanics(at: Location, goal: Location): bool
    decreases TileDistance(at, goal)
  {
    var next := NextGoal(at, goal);
    if TileOf(at) == TileOf(goal) then false
    else if ShortMovePanics(at, next) then true
    else
      NextGoalStep(at, goal);
      RoutePanics(next, goal)
  }

  /** The route panics exactly when the goal is 8 or more tiles behind along
      an axis, or ahead along y by 8 plus a multiple of 7. So a goal 14 tiles
      ahead on both axes is reached, and one 8 tiles behind along x is not. */
  lemma {:induction false} RoutePanicsExactly(at: Location, goal: Location)
    ensures RoutePanics(at, goal) <==>
      var dx, dy := goal.x - at.x, goal.y - at.y;
      dx <= -ShortMoveSide || dy <= -ShortMoveSide || (dy >= ShortMoveSide && dy % 7 == 1)
    decreases TileDistance(at, goal)
  {
    var next := NextGoal(at, goal);
    NextGoalPanics(at, goal);
    if TileOf(at) != TileOf(goal) && !ShortMovePanics(at, next) {
      NextGoalStep(at, goal);
      RoutePanicsExactly(next, goal);
    }
  }

  /** Examples of the verdict: a goal 14 tiles ahead on both axes is
      reached; one 8 tiles behind along x, one exactly 8 ahead along y and
      one 15 ahead along y are not. */
  lemma RouteExamples()
    ensures !RoutePanics(Location(0, 0, 0.0, 0.0), Location(14, 14, 0.7, 0.9))
    ensures RoutePanics(Location(0, 0, 0.0, 0.0), Location(-8, 0, 0.0, 0.0))
    ensures RoutePanics(Location(0, 0, 0.0, 0.0), Location(0, 8, 0.0, 0.0))
    ensures RoutePanics(Location(3, 5, 0.5, 0.5), Location(3, 20, 0.0, 0.0))
  {
    RoutePanicsExactly(Location(0, 0, 0.0, 0.0), Location(14, 14, 0.7, 0.9));
    RoutePanicsExactly(Location(0, 0, 0.0, 0.0), Location(-8, 0, 0.0, 0.0));
    RoutePanicsExactly(Location(0, 0, 0.0, 0.0), Location(0, 8, 0.0, 0.0));
    RoutePanicsExactly(Location(3, 5, 0.5, 0.5), Location(3, 20, 0.0, 0.0));
  }

  /** Every tile between the position and the goal can take the mover's
      footprint. */
  ghost predicate RouteClear(board: Board, who: Character, at: Location, goal: Location)
    reads board
  {
    forall p :: InBox(p, TileOf(at), TileOf(goal)) ==>
      TerrainClear(Occupied(who), board, p.x, p.y, who.ctype.width, who.ctype.height)
  }

  /** On a clear route the short move toward the next waypoint succeeds
      unless it panics. */
  lemma ClearRouteReaches(board: Board, who: Character, at: Location, goal: Location)
    requires RouteClear(board, who, at, goal)
    requires TileOf(at) != TileOf(goal) && !ShortMovePanics(at, NextGoal(at, goal))
    ensures ShortMoveReaches(board, who, at, NextGoal(at, goal))
  {
    var next := NextGoal(at, goal);
    NextGoalSameTile(at, goal);
    NextGoalStep(at, goal);
    var s := SpaceFor(who, at, next);
    forall p | InBox(p, TileOf(at), TileOf(next))
      ensures Passable(board, s, p)
    {
      assert InBox(p, TileOf(at), TileOf(goal));
    }
    BoxReachable(board, s, TileOf(at), TileOf(next));
  }

  /** A clear route is never blocked at its next waypoint. */
  lemma ClearRouteNotBlocked(board: Board, who: Character, at: Location, goal: Location)
    requires RouteClear(board, who, at, goal)
    ensures !ShortMoveBlocked(board, who, at, NextGoal(at, goal))
  {
    NextGoalSameTile(at, goal);
    if TileOf(at) != TileOf(goal) && !ShortMovePanics(at, NextGoal(at, goal)) {
      ClearRouteReaches(board, who, at, goal);
    }
  }

  /** One round of the loop in attemptMove: a short move toward the next
      waypoint. A round that moves the character brings it nearer in tiles
      or onto the goal exactly; a round that leaves it in place and does not
      panic leaves it on the goal or blocked; cells change only to empty or
      to the mover; the route ahead keeps its panic verdict and stays clear
      if it was. */
  method MoveRound(who: Character, board: Board, goal: Location) returns (outcome: ShortMoveOutcome)
    requires Inside(board, who.location.x, who.location.y, who.ctype.width, who.ctype.height)
    modifies who`location, board
    ensures Inside(board, who.location.x, who.location.y, who.ctype.width, who.ctype.height)
    ensures Abs(goal.x - who.location.x) <= Abs(goal.x - old(who.location).x)
    ensures Abs(goal.y - who.location.y) <= Abs(goal.y - old(who.location).y)
    ensures OffsetsFractional(old(who.location)) && OffsetsFractional(goal) ==>
      OffsetsFractional(who.location) &&
      RealAbs(GapX(who.location, goal)) <= RealAbs(GapX(old(who.location), goal)) &&
      RealAbs(GapY(who.location, goal)) <= RealAbs(GapY(old(who.location), goal))
    ensures forall i, j :: 0 <= i < board.Length0 && 0 <= j < board.Length1 ==>
      board[i, j] == old(board[i, j]) || Admits(Occupied(who), board[i, j])
    ensures old(Placed(board, who)) ==> Placed(board, who)
    ensures old(Placed(board, who)) ==> forall i, j :: 0 <= i < board.Length0 && 0 <= j < board.Length1 ==>
      board[i, j] == old(board[i, j]) || Admits(Occupied(who), old(board[i, j]))
    ensures outcome == Panicked ==> RoutePanics(old(who.location), goal)
    ensures RoutePanics(who.location, goal) == RoutePanics(old(who.location), goal)
    ensures old(RouteClear(board, who, who.location, goal)) ==> RouteClear(board, who, who.location, goal)
    ensures who.location == old(who.location) && outcome != Panicked ==>
      who.location == goal || ShortMoveBlocked(board, who, who.location, NextGoal(who.location, goal))
    ensures who.location == old(who.location) || who.location == goal ||
      TileDistance(who.location, goal) < TileDistance(old(who.location), goal)
  {
    var start := who.location;
    var nextGoal := NextGoal(start, goal);
    NextGoalSameTile(start, goal);
    NextGoalPanics(start, goal);
    if TileOf(start) != TileOf(goal) && !ShortMovePanics(start, nextGoal) {
      NextGoalStep(start, goal);
    }
    outcome := AttemptShortMove(who, board, nextGoal);
    if old(RouteClear(board, who, who.location, goal)) {
      forall p | InBox(p, TileOf(who.location), TileOf(goal))
        ensures TerrainClear(Occupied(who), board, p.x, p.y, who.ctype.width, who.ctype.height)
      {
        assert InBox(p, TileOf(start), TileOf(goal));
        assert old(TerrainClear(Occupied(who), board, p.x, p.y, who.ctype.width, who.ctype.height));
      }
    }
  }

  /** attemptMove (lines 313-349). Rounds of short moves toward the clamped
      waypoint until one leaves the location as it was; a panicking short
      move ends the whole move. The character ends no farther from the goal
      along either axis; only cells that end up empty or holding the mover
      change; a placed footprint stays placed. A panic happens only on a
      route that panics; on a clear route the move panics exactly when the
      route does, and otherwise ends exactly on the goal. Without a panic
      the move stops on the goal or where the next short move is blocked. */
  method AttemptMove(who: Character, board: Board, goal: Location) returns (panicked: bool)
    requires Inside(board, who.location.x, who.location.y, who.ctype.width, who.ctype.height)
    modifies who`location, board
    ensures Inside(board, who.location.x, who.location.y, who.ctype.width, who.ctype.height)
    ensures Abs(goal.x - who.location.x) <= Abs(goal.x - old(who.location).x)
    ensures Abs(goal.y - who.location.y) <= Abs(goal.y - old(who.location).y)
    ensures OffsetsFractional(old(who.location)) && OffsetsFractional(goal) ==>
      OffsetsFractional(who.location) &&
      RealAbs(GapX(who.location, goal)) <= RealAbs(GapX(old(who.location), goal)) &&
      RealAbs(GapY(who.location, goal)) <= RealAbs(GapY(old(who.location), goal))
    ensures forall i, j :: 0 <= i < board.Length0 && 0 <= j < board.Length1 ==>
      board[i, j] == old(board[i, j]) || Admits(Occupied(who), board[i, j])
    ensures old(Placed(board, who)) ==> Placed(board, who)
    ensures old(Placed(board, who)) ==> forall i, j :: 0 <= i < board.Length0 && 0 <= j < board.Length1 ==>
      board[i, j] == old(board[i, j]) || Admits(Occupied(who), old(board[i, j]))
    ensures panicked ==> RoutePanics(old(who.location), goal)
    ensures !panicked ==>
      who.location == goal || ShortMoveBlocked(board, who, who.location, NextGoal(who.location, goal))
    ensures old(RouteClear(board, who, who.location, goal)) ==>
      panicked == RoutePanics(old(who.location), goal) && (!panicked ==> who.location == goal)
  {
    while true
      invariant Inside(board, who.location.x, who.location.y, who.ctype.width, who.ctype.height)
      invariant Abs(goal.x - who.location.x) <= Abs(goal.x - old(who.location).x)
      invariant Abs(goal.y - who.location.y) <= Abs(goal.y - old(who.location).y)
      invariant OffsetsFractional(old(who.location)) && OffsetsFractional(goal) ==>
        OffsetsFractional(who.location) &&
        RealAbs(GapX(who.location, goal)) <= RealAbs(GapX(old(who.location), goal)) &&
        RealAbs(GapY(who.location, goal)) <= RealAbs(GapY(old(who.location), goal))
      invariant forall i, j :: 0 <= i < board.Length0 && 0 <= j < board.Length1 ==>
        board[i, j] == old(board[i, j]) || Admits(Occupied(who), board[i, j])
      invariant old(Placed(board, who)) ==> Placed(board, who)
      invariant old(Placed(board, who)) ==> forall i, j :: 0 <= i < board.Length0 && 0 <= j < board.Length1 ==>
        board[i, j] == old(board[i, j]) || Admits(Occupied(who), old(board[i, j]))
      invariant RoutePanics(who.location, goal) == RoutePanics(old(who.location), goal)
      invariant old(RouteClear(board, who, who.location, goal)) ==> RouteClear(board, who, who.location, goal)
      decreases TileDistance(who.location, goal), if who.location == goal then 0 else 1
    {
      var start := who.location;
      var outcome := MoveRound(who, board, goal);
      if outcome == Panicked {
        return true;
      }
      if who.location == start {
        break;
      }
    }
    if old(RouteClear(board, who, who.location, goal)) {
      ClearRouteNotBlocked(board, who, who.location, goal);
    }
    return false;
  }
}
