/** The rules of the checkers engine (the Logic class): move generation for one
    piece and for a whole side, the copy-and-apply of a move used by the
    search, the material score, and the walk that reads a best-move chain out
    of the search's index arrays.

    Generation is specified by functions that produce the moves in the exact
    order the source's loops push them; the class Logic runs those loops and
    is proved to produce the same sequences. Lemmas then characterise the
    generated moves declaratively. */
module Rules {
  import opened Moves
  import opened Grids

  // ---------------------------------------------------------------------
  // Men: captures in all four diagonals (Logic.h:279-295)
  // ---------------------------------------------------------------------

  /** The capture, if any, of the man at (x, y) landing on (i, j), two cells
      away diagonally: the landing cell is on the board and empty, and the
      midpoint holds a piece of the other parity. */
  function ManJump(g: Grid, x: int, y: int, i: int, j: int): seq<BoardMove>
    requires InBounds(x, y)
    requires (i == x - 2 || i == x + 2) && (j == y - 2 || j == y + 2)
  {
    if i < 0 || i > 7 || j < 0 || j > 7 then []
    else
      var xb, yb := (x + i) / 2, (y + j) / 2;
      if g[i][j] != 0 || g[xb][yb] == 0 || g[xb][yb] % 2 == g[x][y] % 2 then []
      else [MovePos(x, y, i, j, xb, yb)]
  }

  function ManJumpRow(g: Grid, x: int, y: int, i: int): seq<BoardMove>
    requires InBounds(x, y) && (i == x - 2 || i == x + 2)
  {
    ManJump(g, x, y, i, y - 2) + ManJump(g, x, y, i, y + 2)
  }

  /** The captures of the columns visited before column j of landing row i. */
  function ManJumpColsBefore(g: Grid, x: int, y: int, i: int, j: int): seq<BoardMove>
    requires InBounds(x, y) && (i == x - 2 || i == x + 2) && (j == y - 2 || j == y + 2 || j == y + 6)
  {
    if j == y - 2 then [] else if j == y + 2 then ManJump(g, x, y, i, y - 2) else ManJumpRow(g, x, y, i)
  }

  /** The captures of the landing rows visited before row i. */
  function ManJumpRowsBefore(g: Grid, x: int, y: int, i: int): seq<BoardMove>
    requires InBounds(x, y) && (i == x - 2 || i == x + 2 || i == x + 6)
  {
    if i == x - 2 then [] else if i == x + 2 then ManJumpRow(g, x, y, x - 2) else ManJumps(g, x, y)
  }

  function ManJumps(g: Grid, x: int, y: int): seq<BoardMove>
    requires InBounds(x, y)
  {
    ManJumpRow(g, x, y, x - 2) + ManJumpRow(g, x, y, x + 2)
  }

  // ---------------------------------------------------------------------
  // Kings: flying captures along a diagonal ray (Logic.h:301-326)
  // ---------------------------------------------------------------------

  predicate IsDir(d: int) {
    d == -1 || d == 1
  }

  /** The captures found by scanning the ray in direction (di, dj) from cell
      (i2, j2) on, when (xb, yb) is the enemy already passed (xb == -1: none
      yet). A piece of the mover's parity, or a second piece of any colour,
      ends the scan. */
  function KingJumpRay(g: Grid, x: int, y: int, di: int, dj: int, i2: int, j2: int, xb: int, yb: int)
    : seq<BoardMove>
    requires InBounds(x, y) && IsDir(di) && IsDir(dj)
    requires -1 <= i2 <= 8 && -1 <= j2 <= 8
    requires xb == -1 || InBounds(xb, yb)
    decreases if di == 1 then 8 - i2 else i2 + 1
  {
    if i2 == 8 || j2 == 8 || i2 == -1 || j2 == -1 then []
    else
      var occupied := g[i2][j2] != 0;
      if occupied && (g[i2][j2] % 2 == g[x][y] % 2 || (g[i2][j2] % 2 != g[x][y] % 2 && xb != -1)) then []
      else
        var xb', yb' := if occupied then i2 else xb, if occupied then j2 else yb;
        (if xb' != -1 && xb' != i2 then [MovePos(x, y, i2, j2, xb', yb')] else [])
          + KingJumpRay(g, x, y, di, dj, i2 + di, j2 + dj, xb', yb')
  }

  function KingJumpDir(g: Grid, x: int, y: int, di: int, dj: int): seq<BoardMove>
    requires InBounds(x, y) && IsDir(di) && IsDir(dj)
  {
    KingJumpRay(g, x, y, di, dj, x + di, y + dj, -1, -1)
  }

  /** The scan stops at (i2, j2): an own piece, or an enemy after one was
      already passed. */
  predicate RayBlocked(g: Grid, x: int, y: int, i2: int, j2: int, xb: int)
    requires InBounds(x, y) && InBounds(i2, j2)
  {
    g[i2][j2] != 0 && (g[i2][j2] % 2 == g[x][y] % 2 || (g[i2][j2] % 2 != g[x][y] % 2 && xb != -1))
  }

  /** The enemy remembered after visiting (i2, j2). */
  function PassedRow(g: Grid, i2: int, j2: int, xb: int): int
    requires InBounds(i2, j2)
  {
    if g[i2][j2] != 0 then i2 else xb
  }

  function PassedCol(g: Grid, i2: int, j2: int, yb: int): int
    requires InBounds(i2, j2)
  {
    if g[i2][j2] != 0 then j2 else yb
  }

  /** The capture recorded at (i2, j2), once an enemy lies behind it. */
  function RayCapture(x: int, y: int, i2: int, j2: int, xb: int, yb: int): seq<MovePos> {
    if xb != -1 && xb != i2 then [MovePos(x, y, i2, j2, xb, yb)] else []
  }

  /** One step of the ray scan at an on-board cell. */
  lemma KingJumpRayUnfold(g: Grid, x: int, y: int, di: int, dj: int, i2: int, j2: int, xb: int, yb: int)
    requires InBounds(x, y) && IsDir(di) && IsDir(dj) && InBounds(i2, j2)
    requires xb == -1 || InBounds(xb, yb)
    ensures RayBlocked(g, x, y, i2, j2, xb) ==> KingJumpRay(g, x, y, di, dj, i2, j2, xb, yb) == []
    ensures !RayBlocked(g, x, y, i2, j2, xb) ==>
      var xb', yb' := PassedRow(g, i2, j2, xb), PassedCol(g, i2, j2, yb);
      KingJumpRay(g, x, y, di, dj, i2, j2, xb, yb)
        == RayCapture(x, y, i2, j2, xb', yb') + KingJumpRay(g, x, y, di, dj, i2 + di, j2 + dj, xb', yb')
  {
  }

  /** The same step stated on an accumulated list: the loop in ScanKingJumps
      keeps `all == turns + KingJumpRay(...)`. */
  lemma KingJumpRayStep(g: Grid, x: int, y: int, di: int, dj: int, i2: int, j2: int, xb: int, yb: int,
                        all: seq<MovePos>, turns: seq<MovePos>)
    requires InBounds(x, y) && IsDir(di) && IsDir(dj) && InBounds(i2, j2)
    requires xb == -1 || InBounds(xb, yb)
    requires all == turns + KingJumpRay(g, x, y, di, dj, i2, j2, xb, yb)
    ensures RayBlocked(g, x, y, i2, j2, xb) ==> all == turns
    ensures !RayBlocked(g, x, y, i2, j2, xb) ==>
      var xb', yb' := PassedRow(g, i2, j2, xb), PassedCol(g, i2, j2, yb);
      all == turns + RayCapture(x, y, i2, j2, xb', yb') + KingJumpRay(g, x, y, di, dj, i2 + di, j2 + dj, xb', yb')
  {
    KingJumpRayUnfold(g, x, y, di, dj, i2, j2, xb, yb);
    if !RayBlocked(g, x, y, i2, j2, xb) {
      var xb', yb' := PassedRow(g, i2, j2, xb), PassedCol(g, i2, j2, yb);
      var head, rest := RayCapture(x, y, i2, j2, xb', yb'), KingJumpRay(g, x, y, di, dj, i2 + di, j2 + dj, xb', yb');
      assert turns + (head + rest) == turns + head + rest;
    }
  }

  function KingJumpHalf(g: Grid, x: int, y: int, di: int): seq<BoardMove>
    requires InBounds(x, y) && IsDir(di)
  {
    KingJumpDir(g, x, y, di, -1) + KingJumpDir(g, x, y, di, 1)
  }

  function JumpDirsBefore(g: Grid, x: int, y: int, i: int, j: int): seq<BoardMove>
    requires InBounds(x, y) && IsDir(i) && (j == -1 || j == 1 || j == 3)
  {
    if j == -1 then [] else if j == 1 then KingJumpDir(g, x, y, i, -1) else KingJumpHalf(g, x, y, i)
  }

  function JumpHalvesBefore(g: Grid, x: int, y: int, i: int): seq<BoardMove>
    requires InBounds(x, y) && (i == -1 || i == 1 || i == 3)
  {
    if i == -1 then [] else if i == 1 then KingJumpHalf(g, x, y, -1) else KingJumps(g, x, y)
  }

  lemma Extend<T>(a: seq<T>, b: seq<T>, c: seq<T>, d: seq<T>)
    requires a == b + c
    ensures a + d == b + (c + d)
  {
  }

  function KingJumps(g: Grid, x: int, y: int): seq<BoardMove>
    requires InBounds(x, y)
  {
    KingJumpHalf(g, x, y, -1) + KingJumpHalf(g, x, y, 1)
  }

  // ---------------------------------------------------------------------
  // Simple moves (Logic.h:337-372)
  // ---------------------------------------------------------------------

  /** The row a man steps to: odd (white) men move towards row 0, even
      (black) men towards row 7. */
  function Forward(v: Cell, x: int): int {
    if v % 2 != 0 then x - 1 else x + 1
  }

  function ManStep(g: Grid, x: int, y: int, i: int, j: int): seq<BoardMove>
    requires InBounds(x, y)
  {
    if i < 0 || i > 7 || j < 0 || j > 7 || g[i][j] != 0 then []
    else [MovePos(x, y, i, j, -1, -1)]
  }

  function ManSteps(g: Grid, x: int, y: int): seq<BoardMove>
    requires InBounds(x, y)
  {
    var i := Forward(g[x][y], x);
    ManStep(g, x, y, i, y - 1) + ManStep(g, x, y, i, y + 1)
  }

  /** The empty cells along one diagonal ray, up to the first occupied one. */
  function KingSlideRay(g: Grid, x: int, y: int, di: int, dj: int, i2: int, j2: int): seq<BoardMove>
    requires InBounds(x, y) && IsDir(di) && IsDir(dj)
    requires -1 <= i2 <= 8 && -1 <= j2 <= 8
    decreases if di == 1 then 8 - i2 else i2 + 1
  {
    if i2 == 8 || j2 == 8 || i2 == -1 || j2 == -1 || g[i2][j2] != 0 then []
    else [MovePos(x, y, i2, j2, -1, -1)] + KingSlideRay(g, x, y, di, dj, i2 + di, j2 + dj)
  }

  /** One step of the slide scan on an accumulated list: the loop in
      ScanKingSlides keeps `all == turns + KingSlideRay(...)`. */
  lemma KingSlideRayStep(g: Grid, x: int, y: int, di: int, dj: int, i2: int, j2: int,
                         all: seq<MovePos>, turns: seq<MovePos>)
    requires InBounds(x, y) && IsDir(di) && IsDir(dj) && InBounds(i2, j2)
    requires all == turns + KingSlideRay(g, x, y, di, dj, i2, j2)
    ensures g[i2][j2] != 0 ==> all == turns
    ensures g[i2][j2] == 0 ==>
      all == (turns + [MovePos(x, y, i2, j2, -1, -1)]) + KingSlideRay(g, x, y, di, dj, i2 + di, j2 + dj)
  {
    if g[i2][j2] == 0 {
      var rest := KingSlideRay(g, x, y, di, dj, i2 + di, j2 + dj);
      assert KingSlideRay(g, x, y, di, dj, i2, j2) == [MovePos(x, y, i2, j2, -1, -1)] + rest;
    }
  }

  function KingSlideDir(g: Grid, x: int, y: int, di: int, dj: int): seq<BoardMove>
    requires InBounds(x, y) && IsDir(di) && IsDir(dj)
  {
    KingSlideRay(g, x, y, di, dj, x + di, y + dj)
  }

  function KingSlideHalf(g: Grid, x: int, y: int, di: int): seq<BoardMove>
    requires InBounds(x, y) && IsDir(di)
  {
    KingSlideDir(g, x, y, di, -1) + KingSlideDir(g, x, y, di, 1)
  }

  function SlideDirsBefore(g: Grid, x: int, y: int, i: int, j: int): seq<BoardMove>
    requires InBounds(x, y) && IsDir(i) && (j == -1 || j == 1 || j == 3)
  {
    if j == -1 then [] else if j == 1 then KingSlideDir(g, x, y, i, -1) else KingSlideHalf(g, x, y, i)
  }

  function SlideHalvesBefore(g: Grid, x: int, y: int, i: int): seq<BoardMove>
    requires InBounds(x, y) && (i == -1 || i == 1 || i == 3)
  {
    if i == -1 then [] else if i == 1 then KingSlideHalf(g, x, y, -1) else KingSlides(g, x, y)
  }

  function KingSlides(g: Grid, x: int, y: int): seq<BoardMove>
    requires InBounds(x, y)
  {
    KingSlideHalf(g, x, y, -1) + KingSlideHalf(g, x, y, 1)
  }

  // ---------------------------------------------------------------------
  // One piece (Logic.h:265-374)
  // ---------------------------------------------------------------------

  datatype Kind = Captures | Steps

  /** The moves of the piece at (x, y) of one kind. Values 1 and 2 are men;
      every other value, the empty cell included, takes the king branch, as
      the source's switch default does. */
  function PieceMoves(g: Grid, x: int, y: int, kind: Kind): seq<BoardMove>
    requires InBounds(x, y)
  {
    match kind
    case Captures => if IsMan(g[x][y]) then ManJumps(g, x, y) else KingJumps(g, x, y)
    case Steps => if IsMan(g[x][y]) then ManSteps(g, x, y) else KingSlides(g, x, y)
  }

  /** The list the per-piece query leaves in `turns`: the captures when there
      is any, the simple moves otherwise. */
  function PieceTurns(g: Grid, x: int, y: int): seq<BoardMove>
    requires InBounds(x, y)
  {
    if PieceMoves(g, x, y, Captures) != [] then PieceMoves(g, x, y, Captures)
    else PieceMoves(g, x, y, Steps)
  }

  // ---------------------------------------------------------------------
  // A whole side (Logic.h:227-261)
  // ---------------------------------------------------------------------

  function CellMoves(g: Grid, color: bool, i: int, j: int, kind: Kind): seq<BoardMove>
    requires InBounds(i, j)
  {
    if Owns(g[i][j], color) then PieceMoves(g, i, j, kind) else []
  }

  /** The moves of one kind of the side's pieces in cells (i, 0) .. (i, j-1). */
  function RowMoves(g: Grid, color: bool, i: int, j: int, kind: Kind): seq<BoardMove>
    requires 0 <= i < 8 && 0 <= j <= 8
  {
    if j == 0 then [] else RowMoves(g, color, i, j - 1, kind) + CellMoves(g, color, i, j - 1, kind)
  }

  /** The moves of one kind of the side's pieces in rows 0 .. i-1, row-major. */
  function RowsMoves(g: Grid, color: bool, i: int, kind: Kind): seq<BoardMove>
    requires 0 <= i <= 8
  {
    if i == 0 then [] else RowsMoves(g, color, i - 1, kind) + RowMoves(g, color, i - 1, 8, kind)
  }

  /** The moves of one kind of the side's pieces in the cells before (i, j)
      in row-major order. */
  function CellsBefore(g: Grid, color: bool, i: int, j: int, kind: Kind): seq<BoardMove>
    requires 0 <= i < 8 && 0 <= j <= 8
  {
    RowsMoves(g, color, i, kind) + RowMoves(g, color, i, j, kind)
  }

  lemma CellsBeforeNext(g: Grid, color: bool, i: int, j: int, kind: Kind)
    requires 0 <= i < 8 && 0 <= j < 8
    ensures CellsBefore(g, color, i, j + 1, kind) == CellsBefore(g, color, i, j, kind) + CellMoves(g, color, i, j, kind)
    ensures j + 1 == 8 ==> CellsBefore(g, color, i, j + 1, kind) == RowsMoves(g, color, i + 1, kind)
  {
    var c := CellMoves(g, color, i, j, kind);
    assert RowMoves(g, color, i, j + 1, kind) == RowMoves(g, color, i, j, kind) + c;
    Extend(CellsBefore(g, color, i, j, kind), RowsMoves(g, color, i, kind), RowMoves(g, color, i, j, kind), c);
  }

  function SideMovesOf(g: Grid, color: bool, kind: Kind): seq<BoardMove> {
    RowsMoves(g, color, 8, kind)
  }

  /** have_beats after the side-wide query. */
  predicate SideHasBeats(g: Grid, color: bool) {
    SideMovesOf(g, color, Captures) != []
  }

  /** The side's legal moves before shuffling: every capture of every piece
      when any exists (mandatory capture), otherwise every simple move. */
  function SideMoves(g: Grid, color: bool): seq<BoardMove> {
    if SideHasBeats(g, color) then SideMovesOf(g, color, Captures) else SideMovesOf(g, color, Steps)
  }

  // ---------------------------------------------------------------------
  // Applying a move to a copy of the grid (Logic.h:50-59)
  // ---------------------------------------------------------------------

  /** The grid with the captured cell of m, if any, emptied. */
  function ClearCaptured(g: Grid, m: BoardMove): (r: Grid)
    ensures !IsCapture(m) ==> r == g
    ensures IsCapture(m) ==> r[m.xb][m.yb] == 0
    ensures forall i, j :: InBounds(i, j) && (!IsCapture(m) || i != m.xb || j != m.yb) ==> r[i][j] == g[i][j]
  {
    if IsCapture(m) then Set(g, m.xb, m.yb, 0) else g
  }

  /** make_turn: empty the captured cell, promote the piece where it stands,
      copy it to the destination and empty the source. Nothing is checked. */
  function MakeTurn(g: Grid, m: BoardMove): (r: Grid)
    ensures r[m.x][m.y] == 0
  {
    var c := ClearCaptured(g, m);
    var moved := Set(c, m.x2, m.y2, Promote(c[m.x][m.y], m.x2));
    Set(moved, m.x, m.y, 0)
  }

  /** The checks move_piece makes after its capture overload has emptied the
      captured cell: the destination is empty and the source is not. */
  predicate Applicable(g: Grid, m: BoardMove) {
    var c := ClearCaptured(g, m);
    c[m.x2][m.y2] == 0 && c[m.x][m.y] != 0
  }

  // ---------------------------------------------------------------------
  // Material score, plain mode (Logic.h:61-97)
  // ---------------------------------------------------------------------

  const INF: real := 1000000000.0

  function CountRow(row: seq<Cell>, v: Cell): nat {
    if row == [] then 0 else CountRow(row[..|row| - 1], v) + (if row[|row| - 1] == v then 1 else 0)
  }

  function CountRows(rows: seq<seq<Cell>>, v: Cell): nat {
    if rows == [] then 0 else CountRows(rows[..|rows| - 1], v) + CountRow(rows[|rows| - 1], v)
  }

  /** The number of cells holding value v. */
  function Count(g: Grid, v: Cell): nat {
    CountRows(g, v)
  }

  /** calc_score(mtx, first_bot_color): the ratio of black material to white
      material, kings weighing 4, with the colours swapped when the flag is
      false; INF when the first side has no piece and 0 when the other has none. */
  function CalcScore(g: Grid, firstBotColor: bool): (r: real)
    ensures r >= 0.0
  {
    var w0, wq0, b0, bq0 := Count(g, 1) as real, Count(g, 3) as real, Count(g, 2) as real, Count(g, 4) as real;
    var w, wq := if firstBotColor then w0 else b0, if firstBotColor then wq0 else bq0;
    var b, bq := if firstBotColor then b0 else w0, if firstBotColor then bq0 else wq0;
    if w + wq == 0.0 then INF
    else if b + bq == 0.0 then 0.0
    else QuotientNonNegative(b + bq * 4.0, w + wq * 4.0); (b + bq * 4.0) / (w + wq * 4.0)
  }

  lemma QuotientNonNegative(a: real, d: real)
    requires a >= 0.0 && d > 0.0
    ensures a / d >= 0.0
  {
    assert a == (a / d) * d;
  }

  // ---------------------------------------------------------------------
  // Reading the best chain out of the search's index arrays (Logic.h:33-43)
  // ---------------------------------------------------------------------

  /** The arrays the search leaves behind, with every link pointing forward
      (the search appends a state before it recurses into it). */
  predicate ForwardLinks(nextMove: seq<MovePos>, nextState: seq<int>) {
    |nextMove| == |nextState| && |nextMove| >= 1
    && forall i :: 0 <= i < |nextState| ==> nextState[i] == -1 || i < nextState[i] < |nextState|
  }

  /** The moves read from state cur on: the move stored there, then the chain
      of the next state while that state exists and holds a move. */
  function BestChain(nextMove: seq<MovePos>, nextState: seq<int>, cur: int): seq<MovePos>
    requires ForwardLinks(nextMove, nextState) && 0 <= cur < |nextMove|
    decreases |nextMove| - cur
  {
    var next := nextState[cur];
    [nextMove[cur]] + if next == -1 || nextMove[next].x == -1 then [] else BestChain(nextMove, nextState, next)
  }

  // ---------------------------------------------------------------------
  // The generator object: `turns` and `have_beats` are fields its queries
  // overwrite (Logic.h:211-374, 377-378)
  // ---------------------------------------------------------------------

  class Logic {
    var turns: seq<BoardMove>
    var haveBeats: bool
    /** Filled by the search, which is not part of this model. */
    var nextMove: seq<MovePos>
    var nextBestState: seq<int>

    constructor ()
      ensures turns == [] && !haveBeats && nextMove == [] && nextBestState == []
    {
      turns := [];
      haveBeats := false;
      nextMove := [];
      nextBestState := [];
    }

    /** The do-while of find_best_turns: collect next_move[cur] and follow
        next_best_state until the link ends or leads to a state without a move. */
    method WalkBestTurns() returns (res: seq<MovePos>)
      requires ForwardLinks(nextMove, nextBestState)
      ensures res == BestChain(nextMove, nextBestState, 0)
    {
      var moves, links := nextMove, nextBestState;
      var cur := 0;
      res := [];
      while true
        invariant 0 <= cur < |moves|
        invariant res + BestChain(moves, links, cur) == BestChain(moves, links, 0)
        decreases |moves| - cur
      {
        var next := links[cur];
        ghost var rest := if next == -1 || moves[next].x == -1 then [] else BestChain(moves, links, next);
        assert BestChain(moves, links, cur) == [moves[cur]] + rest;
        assert res + [moves[cur]] + rest == BestChain(moves, links, 0);
        res := res + [moves[cur]];
        if !(next != -1 && moves[next].x != -1) {
          assert res == res + rest;
          return;
        }
        cur := next;
      }
    }

    /** find_turns(x, y, mtx): the moves of the piece at (x, y). The two
        switches of the source pick the man or the king loops; each loop nest
        is one of the methods below. */
    method FindPieceTurns(x: int, y: int, g: Grid)
      requires InBounds(x, y)
      modifies this
      ensures nextMove == old(nextMove) && nextBestState == old(nextBestState)
      ensures turns == PieceTurns(g, x, y)
      ensures haveBeats <==> PieceMoves(g, x, y, Captures) != []
    {
      turns := [];
      haveBeats := false;
      var t := g[x][y];
      if t == 1 || t == 2 {
        AddManJumps(x, y, g);
      } else {
        AddKingJumps(x, y, g);
      }
      assert turns == PieceMoves(g, x, y, Captures);
      if turns != [] {
        haveBeats := true;
        return;
      }
      if t == 1 || t == 2 {
        AddManSteps(x, y, g);
      } else {
        AddKingSlides(x, y, g);
      }
      assert turns == PieceMoves(g, x, y, Steps);
    }

    /** The man-capture loops: landing rows x-2 and x+2, columns y-2 and y+2. */
    method AddManJumps(x: int, y: int, g: Grid)
      requires InBounds(x, y)
      modifies this`turns
      ensures nextMove == old(nextMove) && nextBestState == old(nextBestState)
      ensures turns == old(turns) + ManJumps(g, x, y)
      ensures haveBeats == old(haveBeats)
    {
      var i := x - 2;
      while i <= x + 2
        invariant i == x - 2 || i == x + 2 || i == x + 6
        invariant turns == old(turns) + ManJumpRowsBefore(g, x, y, i)
      {
        ghost var before := turns;
        var j := y - 2;
        while j <= y + 2
          invariant j == y - 2 || j == y + 2 || j == y + 6
          invariant turns == before + ManJumpColsBefore(g, x, y, i, j)
        {
          ghost var pre := turns;
          TryManJump(x, y, i, j, g);
          Extend(pre, before, ManJumpColsBefore(g, x, y, i, j), ManJump(g, x, y, i, j));
          assert ManJumpColsBefore(g, x, y, i, j) + ManJump(g, x, y, i, j) == ManJumpColsBefore(g, x, y, i, j + 4);
          j := j + 4;
        }
        Extend(before, old(turns), ManJumpRowsBefore(g, x, y, i), ManJumpRow(g, x, y, i));
        assert ManJumpRowsBefore(g, x, y, i) + ManJumpRow(g, x, y, i) == ManJumpRowsBefore(g, x, y, i + 4);
        i := i + 4;
      }
    }

    /** The body of the man-capture loops: the capture landing on (i, j). */
    method TryManJump(x: int, y: int, i: int, j: int, g: Grid)
      requires InBounds(x, y) && (i == x - 2 || i == x + 2) && (j == y - 2 || j == y + 2)
      modifies this`turns
      ensures nextMove == old(nextMove) && nextBestState == old(nextBestState)
      ensures turns == old(turns) + ManJump(g, x, y, i, j)
      ensures haveBeats == old(haveBeats)
    {
      if i < 0 || i > 7 || j < 0 || j > 7 {
        return;
      }
      var xb, yb := (x + i) / 2, (y + j) / 2;
      if g[i][j] != 0 || g[xb][yb] == 0 || g[xb][yb] % 2 == g[x][y] % 2 {
        return;
      }
      turns := turns + [MovePos(x, y, i, j, xb, yb)];
    }

    /** The king-capture loops: the four diagonals in the order
        (-1,-1), (-1,1), (1,-1), (1,1). */
    method AddKingJumps(x: int, y: int, g: Grid)
      requires InBounds(x, y)
      modifies this`turns
      ensures nextMove == old(nextMove) && nextBestState == old(nextBestState)
      ensures turns == old(turns) + KingJumps(g, x, y)
      ensures haveBeats == old(haveBeats)
    {
      var i := -1;
      while i <= 1
        invariant i == -1 || i == 1 || i == 3
        invariant turns == old(turns) + JumpHalvesBefore(g, x, y, i)
      {
        ghost var before := turns;
        var j := -1;
        while j <= 1
          invariant j == -1 || j == 1 || j == 3
          invariant turns == before + JumpDirsBefore(g, x, y, i, j)
        {
          ghost var pre := turns;
          ScanKingJumps(x, y, i, j, g);
          Extend(pre, before, JumpDirsBefore(g, x, y, i, j), KingJumpDir(g, x, y, i, j));
          assert JumpDirsBefore(g, x, y, i, j) + KingJumpDir(g, x, y, i, j) == JumpDirsBefore(g, x, y, i, j + 2);
          j := j + 2;
        }
        Extend(before, old(turns), JumpHalvesBefore(g, x, y, i), KingJumpHalf(g, x, y, i));
        assert JumpHalvesBefore(g, x, y, i) + KingJumpHalf(g, x, y, i) == JumpHalvesBefore(g, x, y, i + 2);
        i := i + 2;
      }
    }

    /** The man's two forward steps. */
    method AddManSteps(x: int, y: int, g: Grid)
      requires InBounds(x, y)
      modifies this`turns
      ensures nextMove == old(nextMove) && nextBestState == old(nextBestState)
      ensures turns == old(turns) + ManSteps(g, x, y)
      ensures haveBeats == old(haveBeats)
    {
      var i := if g[x][y] % 2 != 0 then x - 1 else x + 1;
      var j := y - 1;
      while j <= y + 1
        invariant j == y - 1 || j == y + 1 || j == y + 3
        invariant turns == old(turns) + if j == y - 1 then [] else if j == y + 1 then ManStep(g, x, y, i, y - 1)
                                         else ManSteps(g, x, y)
      {
        ghost var pre := turns;
        if !(i < 0 || i > 7 || j < 0 || j > 7 || g[i][j] != 0) {
          turns := turns + [MovePos(x, y, i, j, -1, -1)];
        }
        assert turns == pre + ManStep(g, x, y, i, j);
        j := j + 2;
      }
    }

    /** The king's slides along the four diagonals. */
    method AddKingSlides(x: int, y: int, g: Grid)
      requires InBounds(x, y)
      modifies this`turns
      ensures nextMove == old(nextMove) && nextBestState == old(nextBestState)
      ensures turns == old(turns) + KingSlides(g, x, y)
      ensures haveBeats == old(haveBeats)
    {
      var i := -1;
      while i <= 1
        invariant i == -1 || i == 1 || i == 3
        invariant turns == old(turns) + SlideHalvesBefore(g, x, y, i)
      {
        ghost var before := turns;
        var j := -1;
        while j <= 1
          invariant j == -1 || j == 1 || j == 3
          invariant turns == before + SlideDirsBefore(g, x, y, i, j)
        {
          ghost var pre := turns;
          ScanKingSlides(x, y, i, j, g);
          Extend(pre, before, SlideDirsBefore(g, x, y, i, j), KingSlideDir(g, x, y, i, j));
          assert SlideDirsBefore(g, x, y, i, j) + KingSlideDir(g, x, y, i, j) == SlideDirsBefore(g, x, y, i, j + 2);
          j := j + 2;
        }
        Extend(before, old(turns), SlideHalvesBefore(g, x, y, i), KingSlideHalf(g, x, y, i));
        assert SlideHalvesBefore(g, x, y, i) + KingSlideHalf(g, x, y, i) == SlideHalvesBefore(g, x, y, i + 2);
        i := i + 2;
      }
    }

    /** One ray of the king's slides: the empty cells up to the first piece. */
    method ScanKingSlides(x: int, y: int, di: int, dj: int, g: Grid)
      requires InBounds(x, y) && IsDir(di) && IsDir(dj)
      modifies this`turns
      ensures nextMove == old(nextMove) && nextBestState == old(nextBestState)
      ensures turns == old(turns) + KingSlideDir(g, x, y, di, dj)
      ensures haveBeats == old(haveBeats)
    {
      ghost var all := old(turns) + KingSlideDir(g, x, y, di, dj);
      var i2, j2 := x + di, y + dj;
      while i2 != 8 && j2 != 8 && i2 != -1 && j2 != -1
        invariant -1 <= i2 <= 8 && -1 <= j2 <= 8
        invariant all == turns + KingSlideRay(g, x, y, di, dj, i2, j2)
        decreases if di == 1 then 8 - i2 else i2 + 1
      {
        KingSlideRayStep(g, x, y, di, dj, i2, j2, all, turns);
        if g[i2][j2] != 0 {
          break;
        }
        turns := turns + [MovePos(x, y, i2, j2, -1, -1)];
        i2, j2 := i2 + di, j2 + dj;
      }
    }

    /** One ray of the king-capture scan: appends KingJumpDir(g, x, y, di, dj). */
    method ScanKingJumps(x: int, y: int, di: int, dj: int, g: Grid)
      requires InBounds(x, y) && IsDir(di) && IsDir(dj)
      modifies this`turns
      ensures nextMove == old(nextMove) && nextBestState == old(nextBestState)
      ensures turns == old(turns) + KingJumpDir(g, x, y, di, dj)
      ensures haveBeats == old(haveBeats)
    {
      ghost var all := old(turns) + KingJumpDir(g, x, y, di, dj);
      var xb, yb := -1, -1;
      var i2, j2 := x + di, y + dj;
      while i2 != 8 && j2 != 8 && i2 != -1 && j2 != -1
        invariant -1 <= i2 <= 8 && -1 <= j2 <= 8
        invariant xb == -1 || InBounds(xb, yb)
        invariant all == turns + KingJumpRay(g, x, y, di, dj, i2, j2, xb, yb)
        decreases if di == 1 then 8 - i2 else i2 + 1
      {
        var stop;
        stop, xb, yb := ScanKingJumpCell(x, y, di, dj, i2, j2, xb, yb, g, all);
        if stop {
          break;
        }
        i2, j2 := i2 + di, j2 + dj;
      }
    }

    /** The body of the ray scan at (i2, j2): stop at a piece of the king's
        parity or at a second piece; otherwise remember an enemy found here
        and, with an enemy behind, record the landing on (i2, j2). `all` is
        the list the whole ray scan ends with. */
    method ScanKingJumpCell(x: int, y: int, di: int, dj: int, i2: int, j2: int, xb: int, yb: int, g: Grid,
                            ghost all: seq<MovePos>)
      returns (stop: bool, xb2: int, yb2: int)
      requires InBounds(x, y) && IsDir(di) && IsDir(dj) && InBounds(i2, j2) && (xb == -1 || InBounds(xb, yb))
      requires all == turns + KingJumpRay(g, x, y, di, dj, i2, j2, xb, yb)
      modifies this`turns
      ensures nextMove == old(nextMove) && nextBestState == old(nextBestState)
      ensures haveBeats == old(haveBeats)
      ensures stop <==> RayBlocked(g, x, y, i2, j2, xb)
      ensures stop ==> turns == old(turns)
      ensures !stop ==> xb2 == PassedRow(g, i2, j2, xb) && yb2 == PassedCol(g, i2, j2, yb)
                        && (xb2 == -1 || InBounds(xb2, yb2))
                        && turns == old(turns) + RayCapture(x, y, i2, j2, xb2, yb2)
      ensures stop ==> all == turns
      ensures !stop ==> all == turns + KingJumpRay(g, x, y, di, dj, i2 + di, j2 + dj, xb2, yb2)
    {
      KingJumpRayStep(g, x, y, di, dj, i2, j2, xb, yb, all, turns);
      xb2, yb2 := xb, yb;
      if g[i2][j2] != 0 {
        if g[i2][j2] % 2 == g[x][y] % 2 || xb != -1 {
          return true, xb2, yb2;
        }
        xb2, yb2 := i2, j2;
      }
      stop := false;
      if xb2 != -1 && xb2 != i2 {
        turns := turns + [MovePos(x, y, i2, j2, xb2, yb2)];
      }
    }

    /** find_turns(color, mtx): the side's moves, shuffled. The random engine
        is not modelled: the result is some permutation of the accumulated list. */
    method FindSideTurns(color: bool, g: Grid)
      modifies this
      ensures nextMove == old(nextMove) && nextBestState == old(nextBestState)
      ensures multiset(turns) == multiset(SideMoves(g, color))
      ensures haveBeats <==> SideHasBeats(g, color)
    {
      var resTurns: seq<BoardMove> := [];
      var haveBeatsBefore := false;
      var i := 0;
      while i < 8
        invariant 0 <= i <= 8
        invariant haveBeatsBefore <==> RowsMoves(g, color, i, Captures) != []
        invariant resTurns == RowsMoves(g, color, i, if haveBeatsBefore then Captures else Steps)
        invariant nextMove == old(nextMove) && nextBestState == old(nextBestState)
      {
        resTurns, haveBeatsBefore := VisitRow(color, i, g, resTurns, haveBeatsBefore);
        i := i + 1;
      }
      var shuffled: seq<BoardMove> :| multiset(shuffled) == multiset(resTurns);
      turns := shuffled;
      haveBeats := haveBeatsBefore;
    }

    /** The inner loop of the side-wide query: the cells of row i. */
    method VisitRow(color: bool, i: int, g: Grid, resTurns: seq<BoardMove>, haveBeatsBefore: bool)
      returns (resTurns': seq<BoardMove>, haveBeatsBefore': bool)
      requires 0 <= i < 8
      requires haveBeatsBefore <==> RowsMoves(g, color, i, Captures) != []
      requires resTurns == RowsMoves(g, color, i, if haveBeatsBefore then Captures else Steps)
      modifies this
      ensures nextMove == old(nextMove) && nextBestState == old(nextBestState)
      ensures haveBeatsBefore' <==> RowsMoves(g, color, i + 1, Captures) != []
      ensures resTurns' == RowsMoves(g, color, i + 1, if haveBeatsBefore' then Captures else Steps)
    {
      resTurns', haveBeatsBefore' := resTurns, haveBeatsBefore;
      var j := 0;
      while j < 8
        invariant 0 <= j <= 8
        invariant haveBeatsBefore' <==> CellsBefore(g, color, i, j, Captures) != []
        invariant resTurns' == if haveBeatsBefore' then CellsBefore(g, color, i, j, Captures)
                               else CellsBefore(g, color, i, j, Steps)
        invariant nextMove == old(nextMove) && nextBestState == old(nextBestState)
      {
        resTurns', haveBeatsBefore' := VisitCell(color, i, j, g, resTurns', haveBeatsBefore');
        j := j + 1;
      }
      CellsBeforeNext(g, color, i, 7, Captures);
      CellsBeforeNext(g, color, i, 7, Steps);
    }

    /** The body of the side-wide loops for cell (i, j): query the piece if
        it belongs to the side, then keep either the captures alone (from
        the first capture on) or every simple move. `captures` and `steps`
        are the two lists the cells before (i, j) contribute. */
    method VisitCell(color: bool, i: int, j: int, g: Grid, resTurns: seq<BoardMove>, haveBeatsBefore: bool)
      returns (resTurns': seq<BoardMove>, haveBeatsBefore': bool)
      requires 0 <= i < 8 && 0 <= j < 8
      requires haveBeatsBefore <==> CellsBefore(g, color, i, j, Captures) != []
      requires resTurns == if haveBeatsBefore then CellsBefore(g, color, i, j, Captures)
                           else CellsBefore(g, color, i, j, Steps)
      modifies this
      ensures nextMove == old(nextMove) && nextBestState == old(nextBestState)
      ensures haveBeatsBefore' <==> CellsBefore(g, color, i, j + 1, Captures) != []
      ensures resTurns' == if haveBeatsBefore' then CellsBefore(g, color, i, j + 1, Captures)
                           else CellsBefore(g, color, i, j + 1, Steps)
    {
      CellsBeforeNext(g, color, i, j, Captures);
      CellsBeforeNext(g, color, i, j, Steps);
      resTurns', haveBeatsBefore' := resTurns, haveBeatsBefore;
      if g[i][j] != 0 && g[i][j] % 2 != ColorBit(color) {
        FindPieceTurns(i, j, g);
        if haveBeats && !haveBeatsBefore' {
          haveBeatsBefore' := true;
          resTurns' := [];
        }
        if (haveBeatsBefore' && haveBeats) || !haveBeatsBefore' {
          resTurns' := resTurns' + turns;
        }
      }
    }
  }
}
