/** The board encoding shared by the live board and the rules: an 8x8 grid of
    small integers, 0 = empty, 1 = white man, 2 = black man, 3 = white king,
    4 = black king. Parity gives the colour and a value above 2 is a king. */
module Grids {
  import opened Moves

  type Cell = v: int | 0 <= v <= 4

  type Grid = g: seq<seq<Cell>> | |g| == 8 && forall i | 0 <= i < 8 :: |g[i]| == 8
    witness seq(8, _ => seq(8, _ => 0))

  predicate InBounds(x: int, y: int) {
    0 <= x < 8 && 0 <= y < 8
  }

  /** A move whose coordinates all lie on the board (the captured cell only
      when the move captures). Every move the rules generate is one. */
  predicate OnBoard(m: MovePos) {
    InBounds(m.x, m.y) && InBounds(m.x2, m.y2) && (m.xb != -1 ==> InBounds(m.xb, m.yb))
  }

  type BoardMove = m: MovePos | OnBoard(m) witness MovePos(0, 0, 0, 0, -1, -1)

  /** The grid with one cell overwritten. */
  function Set(g: Grid, x: int, y: int, v: Cell): (r: Grid)
    requires InBounds(x, y)
    ensures r[x][y] == v
    ensures forall i, j :: InBounds(i, j) && (i != x || j != y) ==> r[i][j] == g[i][j]
  {
    var row: seq<Cell> := g[x][y := v];
    g[x := row]
  }

  function EmptyGrid(): (g: Grid)
    ensures forall i, j :: InBounds(i, j) ==> g[i][j] == 0
  {
    seq(8, _ => seq(8, _ => 0))
  }

  predicate IsMan(v: Cell) {
    v == 1 || v == 2
  }

  /** The integer a colour flag converts to: false is 0, true is 1. */
  function ColorBit(color: bool): int {
    if color then 1 else 0
  }

  /** The side selected by a colour flag moves the pieces whose value is
      non-zero and whose parity differs from the flag: false moves the odd
      (white) pieces, true the even (black) ones. */
  predicate Owns(v: Cell, color: bool) {
    v != 0 && v % 2 != ColorBit(color)
  }

  lemma OwnsByValue(v: Cell, color: bool)
    ensures Owns(v, false) <==> v == 1 || v == 3
    ensures Owns(v, true) <==> v == 2 || v == 4
  {
  }

  /** A man of value 1 reaching row 0, or of value 2 reaching row 7, becomes a
      king; any other piece keeps its value. */
  function Promote(v: Cell, x2: int): (r: Cell)
    ensures r == v || (IsMan(v) && r == v + 2)
    ensures r != v <==> (v == 1 && x2 == 0) || (v == 2 && x2 == 7)
  {
    if (v == 1 && x2 == 0) || (v == 2 && x2 == 7) then v + 2 else v
  }
}
