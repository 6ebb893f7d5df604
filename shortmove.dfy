// One short move (attemptShortMove): a depth-first search for the goal tile
// inside an 8 x 8 window placed around the start and the goal, then a commit
// that moves the character's footprint on the board.
module ShortMove {
  import opened GameTypes
  import opened Terrain

  /** maxShortMoveSide: the side of the search window. */
  const ShortMoveSide := 8
  /** maxMoveStack: the capacity of the search stack. */
  const MoveStackSize := 64

  /** tilePosition: a tile's integer coordinates. */
  datatype Tile = Tile(x: int, y: int)

  function TileOf(l: Location): Tile
  {
    Tile(l.x, l.y)
  }

  /** The fixed data of one search: who moves, its footprint size and the
      window's origin. */
  datatype Space = Space(who: Occupant, width: int, height: int, originX: int, originY: int)

  predicate InWindow(s: Space, p: Tile)
  {
    s.originX <= p.x < s.originX + ShortMoveSide && s.originY <= p.y < s.originY + ShortMoveSide
  }

  /** A tile the search may step onto: inside the window, and the mover's
      footprint anchored there is on the board and free except for the mover. */
  ghost predicate Passable(board: Board, s: Space, p: Tile)
    reads board
  {
    InWindow(s, p) && TerrainClear(s.who, board, p.x, p.y, s.width, s.height)
  }

  /** The four neighbours the search tries: +x, +y, -x, -y. */
  predicate Adjacent(p: Tile, q: Tile)
  {
    q == Tile(p.x + 1, p.y) || q == Tile(p.x, p.y + 1) || q == Tile(p.x - 1, p.y) || q == Tile(p.x, p.y - 1)
  }

  /** A walk from `from` to `to` through neighbouring passable tiles (the
      first tile, where the mover stands, is not itself checked). */
  ghost predicate IsPath(board: Board, s: Space, path: seq<Tile>, from: Tile, to: Tile)
    reads board
  {
    |path| >= 1 && path[0] == from && path[|path| - 1] == to &&
    forall k :: 1 <= k < |path| ==> Adjacent(path[k - 1], path[k]) && Passable(board, s, path[k])
  }

  ghost predicate Reachable(board: Board, s: Space, from: Tile, to: Tile)
    reads board
  {
    exists path :: IsPath(board, s, path, from, to)
  }

  /** A region no step of the search can leave. */
  ghost predicate Closed(board: Board, s: Space, region: iset<Tile>)
    reads board
  {
    forall p, q :: p in region && Adjacent(p, q) && Passable(board, s, q) ==> q in region
  }

  /** Every walk that starts inside a closed region ends inside it. */
  lemma {:induction false} ClosedBlocksPaths(board: Board, s: Space, region: iset<Tile>, path: seq<Tile>, from: Tile, to: Tile)
    requires from in region && Closed(board, s, region)
    requires IsPath(board, s, path, from, to)
    ensures to in region
    decreases |path|
  {
    if |path| > 1 {
      var prefix := path[..|path| - 1];
      assert IsPath(board, s, prefix, from, prefix[|prefix| - 1]);
      ClosedBlocksPaths(board, s, region, prefix, from, prefix[|prefix| - 1]);
      assert Adjacent(path[|path| - 2], to);
    }
  }

  function Abs(n: int): nat
  {
    if n < 0 then -n else n
  }

  /** The tile lies in the smallest rectangle holding tiles a and b. */
  predicate InBox(p: Tile, a: Tile, b: Tile)
  {
    (a.x <= p.x <= b.x || b.x <= p.x <= a.x) && (a.y <= p.y <= b.y || b.y <= p.y <= a.y)
  }

  /** If every tile of the rectangle spanned by `from` and `to` is passable,
      `to` is reachable from `from` (walk along x first, then along y). */
  lemma {:induction false} BoxReachable(board: Board, s: Space, from: Tile, to: Tile)
    requires forall p :: InBox(p, from, to) ==> Passable(board, s, p)
    ensures Reachable(board, s, from, to)
    decreases Abs(to.x - from.x) + Abs(to.y - from.y)
  {
    if from == to {
      assert IsPath(board, s, [from], from, to);
    } else {
      var next :=
        if from.x < to.x then Tile(from.x + 1, from.y)
        else if from.x > to.x then Tile(from.x - 1, from.y)
        else if from.y < to.y then Tile(from.x, from.y + 1)
        else Tile(from.x, from.y - 1);
      assert InBox(next, from, to);
      forall p | InBox(p, next, to) ensures Passable(board, s, p) {
        assert InBox(p, from, to);
      }
      BoxReachable(board, s, next, to);
      var rest :| IsPath(board, s, rest, next, to);
      var path := [from] + rest;
      assert forall k :: 1 <= k < |path| ==> path[k] == rest[k - 1];
      assert IsPath(board, s, path, from, to);
    }
  }

  /** The window origin along one axis (lines 184-197): the margin left over
      by the distance is split in two, half of it behind the start on the side
      away from the goal. Both numerators are positive here, so Go's
      truncating division agrees with Dafny's. */
  function WindowOrigin(from: int, to: int): (origin: int)
    requires -ShortMoveSide < to - from < ShortMoveSide
    ensures origin <= from < origin + ShortMoveSide
    ensures origin <= to < origin + ShortMoveSide
  {
    var d := to - from;
    if d < 0 then to - (ShortMoveSide + d) / 2 else from - (ShortMoveSide - d) / 2
  }

  /** The tile is marked in the window's marks array. */
  ghost predicate Marked(marks: array2<bool>, s: Space, p: Tile)
    reads marks
  {
    InWindow(s, p) && p.x - s.originX < marks.Length0 && p.y - s.originY < marks.Length1 &&
    marks[p.x - s.originX, p.y - s.originY]
  }

  /** checkAndMark: claims the tile when it is in the window, not yet marked
      and passable, and reports whether it did. */
  method CheckAndMark(marks: array2<bool>, board: Board, s: Space, t: Tile) returns (claimed: bool)
    requires marks.Length0 == ShortMoveSide && marks.Length1 == ShortMoveSide
    modifies marks
    ensures claimed == (!old(Marked(marks, s, t)) && Passable(board, s, t))
    ensures !claimed ==> unchanged(marks)
    ensures claimed ==> forall i, j :: 0 <= i < ShortMoveSide && 0 <= j < ShortMoveSide ==>
      marks[i, j] == (old(marks[i, j]) || (i == t.x - s.originX && j == t.y - s.originY))
    ensures claimed ==> forall p :: Marked(marks, s, p) <==> old(Marked(marks, s, p)) || p == t
  {
    var markX := t.x - s.originX;
    if markX < 0 || markX >= ShortMoveSide {
      return false;
    }
    var markY := t.y - s.originY;
    if markY < 0 || markY >= ShortMoveSide {
      return false;
    }
    if marks[markX, markY] {
      return false;
    }
    var clear := CheckTerrainClear(s.who, board, t.x, t.y, s.width, s.height);
    if !clear {
      return false;
    }
    marks[markX, markY] := true;
    return true;
  }

  /** The switch of lines 254-273 without its stack update: tries the
      neighbours of `current` in the order +x, +y, -x, -y and claims the first
      one CheckAndMark accepts. When none is accepted, every passable
      neighbour is already marked. */
  method Expand(marks: array2<bool>, board: Board, s: Space, current: Tile) returns (claimed: bool, next: Tile)
    requires marks.Length0 == ShortMoveSide && marks.Length1 == ShortMoveSide
    modifies marks
    ensures claimed ==> Adjacent(current, next) && !old(Marked(marks, s, next)) && Passable(board, s, next)
    ensures claimed ==> forall p :: Marked(marks, s, p) <==> old(Marked(marks, s, p)) || p == next
    ensures !claimed ==> unchanged(marks)
    ensures !claimed ==> forall q :: Adjacent(current, q) && Passable(board, s, q) ==> Marked(marks, s, q)
  {
    next := Tile(current.x + 1, current.y);
    claimed := CheckAndMark(marks, board, s, next);
    if claimed {
      return;
    }
    next := Tile(current.x, current.y + 1);
    claimed := CheckAndMark(marks, board, s, next);
    if claimed {
      return;
    }
    next := Tile(current.x - 1, current.y);
    claimed := CheckAndMark(marks, board, s, next);
    if claimed {
      return;
    }
    next := Tile(current.x, current.y - 1);
    claimed := CheckAndMark(marks, board, s, next);
  }

  /** Numbers the cells of the 8 x 8 window 0 .. 63, column by column. */
  ghost function CellIndex(s: Space, p: Tile): int
  {
    (p.x - s.originX) * ShortMoveSide + (p.y - s.originY)
  }

  /** A bound on a set of integers drawn from [0, n). */
  lemma {:induction false} BoundedCard(m: set<int>, n: nat)
    requires forall k :: k in m ==> 0 <= k < n
    ensures |m| <= n
  {
    if n > 0 {
      BoundedCard(m - {n - 1}, n - 1);
    } else {
      assert forall k :: k !in m;
      assert m == {};
    }
  }

  /** Distinct window tiles have distinct cell numbers. */
  lemma {:induction false} CellIndexCard(s: Space, tiles: set<Tile>)
    requires forall p :: p in tiles ==> InWindow(s, p)
    ensures |set p | p in tiles :: CellIndex(s, p)| == |tiles|
    decreases |tiles|
  {
    if tiles != {} {
      var t :| t in tiles;
      var rest := tiles - {t};
      CellIndexCard(s, rest);
      var cells := set p | p in tiles :: CellIndex(s, p);
      var restCells := set p | p in rest :: CellIndex(s, p);
      assert cells == restCells + {CellIndex(s, t)};
      forall p | p in rest
        ensures CellIndex(s, p) != CellIndex(s, t)
      {
        CellIndexInjective(s, p, t);
      }
      assert CellIndex(s, t) !in restCells;
    }
  }

  lemma CellIndexInjective(s: Space, p: Tile, q: Tile)
    requires InWindow(s, p) && InWindow(s, q) && p != q
    ensures CellIndex(s, p) != CellIndex(s, q)
  {
  }

  /** The window holds at most MoveStackSize tiles. */
  lemma WindowCard(s: Space, tiles: set<Tile>)
    requires forall p :: p in tiles ==> InWindow(s, p)
    ensures |tiles| <= MoveStackSize
  {
    CellIndexCard(s, tiles);
    BoundedCard(set p | p in tiles :: CellIndex(s, p), MoveStackSize);
  }

  /** What the search knows between steps: `path` (the stack) is a walk from
      the start through claimed tiles, every claimed tile off the stack has
      had all its passable neighbours claimed, and a claimed goal sits on top. */
  ghost predicate SearchState(board: Board, s: Space, start: Tile, goal: Tile, claimed: set<Tile>, path: seq<Tile>)
    reads board
  {
    start in claimed &&
    (forall p :: p in claimed ==> InWindow(s, p)) &&
    (path != [] ==> path[0] == start) &&
    (forall k :: 1 <= k < |path| ==> Adjacent(path[k - 1], path[k]) && Passable(board, s, path[k])) &&
    (forall p, q {:trigger Adjacent(p, q)} ::
      p in claimed && p !in path && Adjacent(p, q) && Passable(board, s, q) ==> q in claimed) &&
    (goal in claimed ==> path != [] && path[|path| - 1] == goal)
  }

  /** A push keeps the search state. */
  lemma PushKeeps(board: Board, s: Space, start: Tile, goal: Tile, claimed: set<Tile>, path: seq<Tile>, next: Tile)
    requires SearchState(board, s, start, goal, claimed, path)
    requires path != [] && path[|path| - 1] != goal
    requires Adjacent(path[|path| - 1], next) && Passable(board, s, next) && next !in claimed
    ensures SearchState(board, s, start, goal, claimed + {next}, path + [next])
  {
  }

  /** A pop of a tile whose passable neighbours are all claimed keeps the
      search state. */
  lemma PopKeeps(board: Board, s: Space, start: Tile, goal: Tile, claimed: set<Tile>, path: seq<Tile>)
    requires SearchState(board, s, start, goal, claimed, path)
    requires path != [] && path[|path| - 1] != goal
    requires forall q :: Adjacent(path[|path| - 1], q) && Passable(board, s, q) ==> q in claimed
    ensures SearchState(board, s, start, goal, claimed, path[..|path| - 1])
  {
    var last := path[|path| - 1];
    var rest := path[..|path| - 1];
    assert path == rest + [last];
    forall p, q | p in claimed && p !in rest && Adjacent(p, q) && Passable(board, s, q)
      ensures q in claimed
    {
      if p != last {
        assert p !in path;
      }
    }
  }

  /** An empty stack means the goal cannot be reached. */
  lemma {:induction false} ExhaustedUnreachable(board: Board, s: Space, start: Tile, goal: Tile, claimed: set<Tile>)
    requires SearchState(board, s, start, goal, claimed, [])
    ensures !Reachable(board, s, start, goal)
  {
    var region := iset p | p in claimed;
    forall path | IsPath(board, s, path, start, goal)
      ensures goal in region
    {
      ClosedBlocksPaths(board, s, region, path, start, goal);
    }
  }

  /** The search loop of lines 237-274: a depth-first search from `start`
      with an explicit stack of MoveStackSize slots, trying neighbours in the
      order +x, +y, -x, -y. Every push claims a tile not marked before, so
      the stack never overflows and the loop ends. It stops on the goal tile,
      or when the stack runs empty, leaving `current` on the start tile; it
      finds the goal exactly when the goal can be reached inside the window. */
  method Search(board: Board, s: Space, start: Tile, goal: Tile) returns (current: Tile)
    requires InWindow(s, start) && InWindow(s, goal) && start != goal
    ensures current == goal || current == start
    ensures current == goal <==> Reachable(board, s, start, goal)
    ensures current == goal ==> Passable(board, s, goal)
  {
    var marks, stack := StartSearch(board, s, start, goal);
    // The marked tiles; every push adds one.
    ghost var visited: set<Tile> := {start};
    var depth := 1;
    current := Tile(0, 0);
    while depth > 0
      invariant SearchInvariant(marks, stack, depth, board, s, start, goal, visited)
      invariant depth == 0 ==> current == start
      decreases MoveStackSize - |visited|, depth
    {
      current := stack[depth - 1];
      if current == goal {
        break;
      }
      depth, visited := SearchStep(marks, stack, board, s, start, goal, depth, visited);
    }
    if current == goal {
      FoundReachable(board, s, start, goal, visited, stack[..depth]);
    } else {
      assert stack[..depth] == [];
      ExhaustedUnreachable(board, s, start, goal, visited);
    }
  }

  /** The marks and the stack as the search starts (lines 199 and 237-239): only the
      start tile marked, and on the stack. */
  method StartSearch(board: Board, s: Space, start: Tile, goal: Tile) returns (marks: array2<bool>, stack: array<Tile>)
    requires InWindow(s, start) && start != goal
    ensures fresh(marks) && fresh(stack)
    ensures SearchInvariant(marks, stack, 1, board, s, start, goal, {start})
  {
    marks := new bool[ShortMoveSide, ShortMoveSide]((i, j) => false);
    stack := new Tile[MoveStackSize](_ => Tile(0, 0));
    marks[start.x - s.originX, start.y - s.originY] := true;
    stack[0] := start;
    assert stack[..1] == [start];
  }

  /** A stack topped by the goal is a walk to it. */
  lemma FoundReachable(board: Board, s: Space, start: Tile, goal: Tile, claimed: set<Tile>, path: seq<Tile>)
    requires SearchState(board, s, start, goal, claimed, path)
    requires start != goal && path != [] && path[|path| - 1] == goal
    ensures Reachable(board, s, start, goal) && Passable(board, s, goal)
  {
    assert IsPath(board, s, path, start, goal);
  }

  /** The loop invariant of the search: the marks are exactly the claimed
      tiles, the stack holds no more entries than there are claimed tiles,
      and the search state holds for the stack's contents. */
  ghost predicate SearchInvariant(marks: array2<bool>, stack: array<Tile>, depth: int, board: Board, s: Space,
                                  start: Tile, goal: Tile, visited: set<Tile>)
    reads marks, stack, board
  {
    marks.Length0 == ShortMoveSide && marks.Length1 == ShortMoveSide && stack.Length == MoveStackSize &&
    (forall p :: Marked(marks, s, p) <==> p in visited) &&
    0 <= depth <= |visited| <= MoveStackSize &&
    SearchState(board, s, start, goal, visited, stack[..depth])
  }

  /** One pass of the loop body (lines 247-273) on a stack whose top is not
      the goal: push the first neighbour claimed, or pop. A push claims one
      more tile, so it fits in the stack. */
  method SearchStep(marks: array2<bool>, stack: array<Tile>, board: Board, s: Space, start: Tile, goal: Tile,
                    depth: int, ghost visited: set<Tile>)
    returns (newDepth: int, ghost newVisited: set<Tile>)
    requires SearchInvariant(marks, stack, depth, board, s, start, goal, visited)
    requires 0 < depth && stack[depth - 1] != goal
    modifies marks, stack
    ensures SearchInvariant(marks, stack, newDepth, board, s, start, goal, newVisited)
    ensures (newDepth == depth + 1 && |newVisited| == |visited| + 1) || (newDepth == depth - 1 && newVisited == visited)
  {
    var current := stack[depth - 1];
    ghost var onStack := stack[..depth];
    var claimed, next := Expand(marks, board, s, current);
    if claimed {
      PushKeeps(board, s, start, goal, visited, onStack, next);
      newVisited := visited + {next};
      WindowCard(s, newVisited);
      stack[depth] := next;
      newDepth := depth + 1;
      assert stack[..newDepth] == onStack + [next];
    } else {
      PopKeeps(board, s, start, goal, visited, onStack);
      newVisited := visited;
      newDepth := depth - 1;
      assert stack[..newDepth] == onStack[..newDepth];
    }
  }

  /** How a call of attemptShortMove ends. */
  datatype ShortMoveOutcome =
    | OffsetsCopied   // same tile: only the offsets are taken from the goal
    | Panicked        // the goal tile is too far away (lines 175-180)
    | Stayed          // the search did not reach the goal tile: nothing changes
    | Moved           // the footprint now sits on the goal, at exactly the goal location

  /** The goal is on another tile, at least ShortMoveSide away along some axis. */
  predicate ShortMovePanics(at: Location, goal: Location)
  {
    var dx, dy := goal.x - at.x, goal.y - at.y;
    !(dx == 0 && dy == 0) &&
    (dx >= ShortMoveSide || dx <= -ShortMoveSide || dy >= ShortMoveSide || dy <= -ShortMoveSide)
  }

  /** The search space of a short move: the mover as board occupant, its
      footprint, and the window placed around start and goal. */
  function SpaceFor(who: Character, at: Location, goal: Location): Space
    requires -ShortMoveSide < goal.x - at.x < ShortMoveSide
    requires -ShortMoveSide < goal.y - at.y < ShortMoveSide
  {
    Space(Occupied(who), who.ctype.width, who.ctype.height, WindowOrigin(at.x, goal.x), WindowOrigin(at.y, goal.y))
  }

  /** The goal tile can be reached from the start tile inside the window. */
  ghost predicate ShortMoveReaches(board: Board, who: Character, at: Location, goal: Location)
    reads board
  {
    TileOf(at) != TileOf(goal) && !ShortMovePanics(at, goal) &&
    Reachable(board, SpaceFor(who, at, goal), TileOf(at), TileOf(goal))
  }

  /** The goal tile is another tile, close enough, but not reachable inside
      the window. */
  ghost predicate ShortMoveBlocked(board: Board, who: Character, at: Location, goal: Location)
    reads board
  {
    TileOf(at) != TileOf(goal) && !ShortMovePanics(at, goal) &&
    !Reachable(board, SpaceFor(who, at, goal), TileOf(at), TileOf(goal))
  }

  /** attemptShortMove (lines 162-307). On the same tile it copies the goal's
      offsets; a goal tile ShortMoveSide or more away panics; otherwise the
      search decides: if the goal tile is reachable inside the window the
      footprint is lifted from the old tiles and written on the goal tiles,
      which were free, and the character stands exactly on the goal, and if
      not nothing changes. The branch that would leave the character on an
      intermediate tile is never taken. */
  method AttemptShortMove(who: Character, board: Board, goal: Location) returns (outcome: ShortMoveOutcome)
    requires Inside(board, who.location.x, who.location.y, who.ctype.width, who.ctype.height)
    modifies who`location, board
    ensures outcome == OffsetsCopied <==> TileOf(old(who.location)) == TileOf(goal)
    ensures outcome == Panicked <==> ShortMovePanics(old(who.location), goal)
    ensures outcome == Moved <==> old(ShortMoveReaches(board, who, who.location, goal))
    ensures outcome == Stayed <==> old(ShortMoveBlocked(board, who, who.location, goal))
    ensures outcome == OffsetsCopied ==>
      who.location == old(who.location).(offsetX := goal.offsetX, offsetY := goal.offsetY) && unchanged(board)
    ensures outcome == Panicked || outcome == Stayed ==> who.location == old(who.location) && unchanged(board)
    ensures outcome == Moved ==>
      who.location == goal &&
      old(TerrainClear(Occupied(who), board, goal.x, goal.y, who.ctype.width, who.ctype.height))
    ensures outcome == Moved ==> forall i, j :: 0 <= i < board.Length0 && 0 <= j < board.Length1 ==>
      board[i, j] ==
        if InRect(i, j, goal.x, goal.y, who.ctype.width, who.ctype.height) then Occupied(who)
        else if InRect(i, j, old(who.location).x, old(who.location).y, who.ctype.width, who.ctype.height) then Vacant
        else old(board[i, j])
    ensures old(Placed(board, who)) ==> Placed(board, who)
  {
    var at := who.location;
    var dx, dy := goal.x - at.x, goal.y - at.y;
    if dx == 0 && dy == 0 {
      who.location := at.(offsetX := goal.offsetX, offsetY := goal.offsetY);
      return OffsetsCopied;
    }
    if dx >= ShortMoveSide || dx <= -ShortMoveSide {
      return Panicked;
    }
    if dy >= ShortMoveSide || dy <= -ShortMoveSide {
      return Panicked;
    }
    var s := SpaceFor(who, at, goal);
    var goalTile := TileOf(goal);
    var current := Search(board, s, TileOf(at), goalTile);
    var newDx, newDy := goal.x - current.x, goal.y - current.y;
    if dx * dx + dy * dy <= newDx * newDx + newDy * newDy {
      return Stayed;
    }
    Fill(board, at.x, at.y, who.ctype.width, who.ctype.height, Vacant);
    Fill(board, current.x, current.y, who.ctype.width, who.ctype.height, Occupied(who));
    if current == goalTile {
      who.location := goal;
    } else {
      assert false;
    }
    return Moved;
  }
}
