// The occupancy grid: a column-major board (board[x, y]) whose Length0 is the
// terrain's Width and Length1 its Height, the "is this rectangle free" query
// and the footprint writes used by placement and movement.
module Terrain {
  import opened GameTypes

  type Board = array2<Occupant>

  /** A cell is free for `who` when it is empty or already holds `who`. */
  predicate Admits(who: Occupant, cell: Occupant)
  {
    cell == Vacant || cell == who
  }

  /** Cell (i, j) lies in the width x height rectangle anchored at (x, y). */
  predicate InRect(i: int, j: int, x: int, y: int, width: int, height: int)
  {
    x <= i < x + width && y <= j < y + height
  }

  /** The rectangle's bounds checks, as isTerrainClear makes them. */
  predicate Inside(board: Board, x: int, y: int, width: int, height: int)
  {
    0 <= x && x + width <= board.Length0 && 0 <= y && y + height <= board.Length1
  }

  /** The rectangle is on the board and every cell in it admits `who`. */
  ghost predicate TerrainClear(who: Occupant, board: Board, x: int, y: int, width: int, height: int)
    reads board
  {
    Inside(board, x, y, width, height) &&
    forall i, j :: InRect(i, j, x, y, width, height) ==> Admits(who, board[i, j])
  }

  /** isTerrainClear: the bounds checks, then a column-by-column scan that
      stops at the first cell holding someone other than `who`. */
  method CheckTerrainClear(who: Occupant, board: Board, x: int, y: int, width: int, height: int)
    returns (clear: bool)
    ensures clear == TerrainClear(who, board, x, y, width, height)
  {
    if x < 0 || x + width > board.Length0 {
      return false;
    }
    if y < 0 || y + height > board.Length1 {
      return false;
    }
    var checkX := 0;
    while checkX < width
      invariant 0 <= checkX && (checkX == 0 || checkX <= width)
      invariant forall i, j :: InRect(i, j, x, y, checkX, height) ==> Admits(who, board[i, j])
    {
      var tryX, checkY := x + checkX, 0;
      while checkY < height
        invariant 0 <= checkY && (checkY == 0 || checkY <= height)
        invariant forall i, j :: InRect(i, j, x, y, checkX, height) ==> Admits(who, board[i, j])
        invariant forall j :: y <= j < y + checkY ==> Admits(who, board[tryX, j])
      {
        var occupant := board[tryX, y + checkY];
        if occupant != Vacant && occupant != who {
          return false;
        }
        checkY := checkY + 1;
      }
      checkX := checkX + 1;
    }
    return true;
  }

  /** Writes `v` into every cell of the rectangle (the nested loops that clear
      an old footprint or write a new one); every other cell keeps its value. */
  method Fill(board: Board, x: int, y: int, width: int, height: int, v: Occupant)
    requires Inside(board, x, y, width, height)
    modifies board
    ensures forall i, j :: 0 <= i < board.Length0 && 0 <= j < board.Length1 ==>
      board[i, j] == if InRect(i, j, x, y, width, height) then v else old(board[i, j])
  {
    var cx := 0;
    while cx < width
      invariant 0 <= cx && (cx == 0 || cx <= width)
      invariant forall i, j :: 0 <= i < board.Length0 && 0 <= j < board.Length1 ==>
        board[i, j] == if InRect(i, j, x, y, cx, height) then v else old(board[i, j])
    {
      var cy := 0;
      while cy < height
        invariant 0 <= cy && (cy == 0 || cy <= height)
        invariant forall i, j :: 0 <= i < board.Length0 && 0 <= j < board.Length1 ==>
          board[i, j] == if InRect(i, j, x, y, cx, height) || (i == x + cx && y <= j < y + cy)
                         then v else old(board[i, j])
      {
        board[x + cx, y + cy] := v;
        cy := cy + 1;
      }
      cx := cx + 1;
    }
  }

  /** Exactly the cells of the character's footprint hold it, and the
      footprint is on the board. */
  ghost predicate Placed(board: Board, who: Character)
    reads board, who
  {
    Inside(board, who.location.x, who.location.y, who.ctype.width, who.ctype.height) &&
    forall i, j :: 0 <= i < board.Length0 && 0 <= j < board.Length1 ==>
      (board[i, j] == Occupied(who) <==> InRect(i, j, who.location.x, who.location.y, who.ctype.width, who.ctype.height))
  }
}
