/** The live board: the grid the game is played on and its undo history, two
    stacks pushed and popped in lockstep (Game/Board.h). Drawing is not part
    of this model; every redraw the source does after a change is a no-op here. */
module Boards {
  import opened Moves
  import opened Grids
  import opened Rules
  import opened RuleFacts

  /** The two runtime errors move_piece and turn_into_queen throw. */
  datatype BoardError = FinalNotEmpty | BeginEmpty | CannotPromote

  datatype Outcome = Ok | Err(error: BoardError)

  /** The value make_start_mtx puts on a cell: black men on the dark cells of
      rows 0-2, white men on the dark cells of rows 5-7. */
  function StartCell(i: int, j: int): Cell {
    if i < 3 && (i + j) % 2 == 1 then 2
    else if i > 4 && (i + j) % 2 == 1 then 1
    else 0
  }

  function StartGrid(): (g: Grid)
    ensures forall i, j :: InBounds(i, j) ==> g[i][j] == StartCell(i, j)
  {
    seq(8, i requires 0 <= i < 8 => seq(8, j requires 0 <= j < 8 => StartCell(i, j)))
  }

  /** Two grids that agree on every cell are the same grid. */
  lemma GridsEqual(g: Grid, h: Grid)
    requires forall i, j :: InBounds(i, j) ==> g[i][j] == h[i][j]
    ensures g == h
  {
    forall i | 0 <= i < 8
      ensures g[i] == h[i]
    {
      assert forall j :: 0 <= j < 8 ==> g[i][j] == h[i][j];
    }
  }

  /** How many history entries rollback pops: the last beat series, at least
      one, but never the first entry. */
  function PopCount(historyBeatSeries: seq<int>): (n: nat)
    requires |historyBeatSeries| >= 1
    ensures n <= |historyBeatSeries| - 1
    ensures |historyBeatSeries| > 1 ==> n >= 1
  {
    var last := historyBeatSeries[|historyBeatSeries| - 1];
    var want := if last < 1 then 1 else last;
    if want < |historyBeatSeries| - 1 then want else |historyBeatSeries| - 1
  }

  /** A capture chain of k moves records beat series 1, ..., k; rollback then
      undoes the whole chain, provided the history holds an entry before it. */
  lemma PopCountUndoesChain(before: seq<int>, k: nat)
    requires |before| >= 1 && k >= 1
    ensures PopCount(before + Series(1, k)) == k
  {
    SeriesShape(1, k);
  }

  /** The beat series a chain records when it starts from count b: b, b+1, ... */
  function Series(b: int, k: nat): (s: seq<int>)
    ensures |s| == k
  {
    if k == 0 then [] else Series(b, k - 1) + [b + k - 1]
  }

  lemma {:induction false} SeriesShape(b: int, k: nat)
    ensures forall t :: 0 <= t < k ==> Series(b, k)[t] == b + t
  {
    if k > 0 {
      SeriesShape(b, k - 1);
      assert Series(b, k) == Series(b, k - 1) + [b + k - 1];
    }
  }

  class Board {
    var mtx: Grid
    var historyMtx: seq<Grid>
    var historyBeatSeries: seq<int>

    /** The two history stacks always have the same height. */
    predicate Valid()
      reads this
    {
      |historyMtx| == |historyBeatSeries|
    }

    /** Once the start layout has been recorded the history is never empty. */
    predicate Seeded()
      reads this
    {
      Valid() && |historyMtx| >= 1
    }

    /** The grid on the board is the one recorded on top of the history. */
    predicate Synced()
      reads this
    {
      Seeded() && mtx == historyMtx[|historyMtx| - 1]
    }

    constructor ()
      ensures mtx == EmptyGrid() && historyMtx == [] && historyBeatSeries == []
      ensures Valid()
    {
      mtx := EmptyGrid();
      historyMtx := [];
      historyBeatSeries := [];
    }

    /** add_history: push the current grid and the beat series together. */
    method AddHistory(beatSeries: int)
      modifies this
      ensures mtx == old(mtx)
      ensures historyMtx == old(historyMtx) + [mtx]
      ensures historyBeatSeries == old(historyBeatSeries) + [beatSeries]
    {
      historyMtx := historyMtx + [mtx];
      historyBeatSeries := historyBeatSeries + [beatSeries];
    }

    /** make_start_mtx: fill the grid cell by cell, then record it with beat
        series 0. */
    method MakeStartMtx()
      modifies this
      ensures mtx == StartGrid()
      ensures historyMtx == old(historyMtx) + [StartGrid()]
      ensures historyBeatSeries == old(historyBeatSeries) + [0]
    {
      for i := 0 to 8
        invariant historyMtx == old(historyMtx) && historyBeatSeries == old(historyBeatSeries)
        invariant forall a, b :: 0 <= a < i && 0 <= b < 8 ==> mtx[a][b] == StartCell(a, b)
      {
        for j := 0 to 8
          invariant historyMtx == old(historyMtx) && historyBeatSeries == old(historyBeatSeries)
          invariant forall a, b :: 0 <= a < i && 0 <= b < 8 ==> mtx[a][b] == StartCell(a, b)
          invariant forall b :: 0 <= b < j ==> mtx[i][b] == StartCell(i, b)
        {
          mtx := Set(mtx, i, j, 0);
          if i < 3 && (i + j) % 2 == 1 {
            mtx := Set(mtx, i, j, 2);
          }
          if i > 4 && (i + j) % 2 == 1 {
            mtx := Set(mtx, i, j, 1);
          }
        }
      }
      GridsEqual(mtx, StartGrid());
      AddHistory(0);
    }

    /** redraw, state part: forget the whole history and start again from the
        start layout. */
    method Redraw()
      modifies this
      ensures mtx == StartGrid()
      ensures historyMtx == [StartGrid()] && historyBeatSeries == [0]
      ensures Synced()
    {
      historyMtx := [];
      historyBeatSeries := [];
      MakeStartMtx();
    }

    /** get_board: a copy of the grid. */
    function GetBoard(): (g: Grid)
      reads this
      ensures forall i, j :: InBounds(i, j) ==> g[i][j] == mtx[i][j]
    {
      mtx
    }

    /** drop_piece, state part. */
    method DropPiece(i: int, j: int)
      requires InBounds(i, j)
      modifies this
      ensures mtx == Set(old(mtx), i, j, 0)
      ensures historyMtx == old(historyMtx) && historyBeatSeries == old(historyBeatSeries)
    {
      mtx := Set(mtx, i, j, 0);
    }

    /** move_piece(i, j, i2, j2, beat_series): refuse an occupied destination,
        then an empty source; otherwise promote the piece where it stands when
        it reaches the far row, copy it over, empty the source and record the
        new grid. */
    method MovePieceAt(i: int, j: int, i2: int, j2: int, beatSeries: int) returns (r: Outcome)
      requires InBounds(i, j) && InBounds(i2, j2)
      modifies this
      ensures r == Err(FinalNotEmpty) <==> old(mtx)[i2][j2] != 0
      ensures r == Err(BeginEmpty) <==> old(mtx)[i2][j2] == 0 && old(mtx)[i][j] == 0
      ensures r.Ok? <==> old(mtx)[i2][j2] == 0 && old(mtx)[i][j] != 0
      ensures r.Err? ==> mtx == old(mtx) && historyMtx == old(historyMtx)
                         && historyBeatSeries == old(historyBeatSeries)
      ensures r.Ok? ==> mtx == MakeTurn(old(mtx), Simple(i, j, i2, j2))
                        && historyMtx == old(historyMtx) + [mtx]
                        && historyBeatSeries == old(historyBeatSeries) + [beatSeries]
    {
      if mtx[i2][j2] != 0 {
        return Err(FinalNotEmpty);
      }
      if mtx[i][j] == 0 {
        return Err(BeginEmpty);
      }
      ghost var g := mtx;
      if (mtx[i][j] == 1 && i2 == 0) || (mtx[i][j] == 2 && i2 == 7) {
        mtx := Set(mtx, i, j, mtx[i][j] + 2);
      }
      mtx := Set(mtx, i2, j2, mtx[i][j]);
      DropPiece(i, j);
      GridsEqual(mtx, MakeTurn(g, Simple(i, j, i2, j2)));
      AddHistory(beatSeries);
      r := Ok;
    }

    /** move_piece(turn, beat_series): empty the captured cell first, then
        move. The grid change of a legal move is exactly make_turn's, and a
        refused capture keeps the captured cell emptied: the operation is not
        atomic. */
    method MovePiece(m: BoardMove, beatSeries: int) returns (r: Outcome)
      modifies this
      ensures r.Ok? <==> Applicable(old(mtx), m)
      ensures r == Err(FinalNotEmpty) <==> ClearCaptured(old(mtx), m)[m.x2][m.y2] != 0
      ensures r.Err? ==> r == Err(FinalNotEmpty) || r == Err(BeginEmpty)
      ensures r.Ok? ==> mtx == MakeTurn(old(mtx), m)
                        && historyMtx == old(historyMtx) + [mtx]
                        && historyBeatSeries == old(historyBeatSeries) + [beatSeries]
      ensures r.Err? ==> mtx == ClearCaptured(old(mtx), m)
                         && historyMtx == old(historyMtx) && historyBeatSeries == old(historyBeatSeries)
    {
      if m.xb != -1 {
        mtx := Set(mtx, m.xb, m.yb, 0);
      }
      ghost var c := mtx;
      assert c == ClearCaptured(old(mtx), m);
      r := MovePieceAt(m.x, m.y, m.x2, m.y2, beatSeries);
      if r.Ok? {
        assert MakeTurn(c, Simple(m.x, m.y, m.x2, m.y2)) == MakeTurn(old(mtx), m);
      }
    }

    /** turn_into_queen: only a man can be crowned; it keeps its colour. */
    method TurnIntoQueen(i: int, j: int) returns (r: Outcome)
      requires InBounds(i, j)
      modifies this
      ensures r.Ok? <==> IsMan(old(mtx)[i][j])
      ensures r.Err? ==> r.error == CannotPromote && mtx == old(mtx)
      ensures r.Ok? ==> mtx[i][j] > 2 && (Owns(mtx[i][j], true) <==> Owns(old(mtx)[i][j], true))
      ensures r.Ok? ==> forall a, b :: InBounds(a, b) && (a != i || b != j) ==> mtx[a][b] == old(mtx)[a][b]
      ensures historyMtx == old(historyMtx) && historyBeatSeries == old(historyBeatSeries)
    {
      if mtx[i][j] == 0 || mtx[i][j] > 2 {
        return Err(CannotPromote);
      }
      mtx := Set(mtx, i, j, mtx[i][j] + 2);
      r := Ok;
    }

    /** rollback: pop both stacks PopCount times, never below one entry, and
        restore the grid recorded on top. */
    method Rollback()
      requires Seeded()
      modifies this
      ensures Synced()
      ensures var n := PopCount(old(historyBeatSeries));
        historyMtx == old(historyMtx)[..|old(historyMtx)| - n]
        && historyBeatSeries == old(historyBeatSeries)[..|old(historyBeatSeries)| - n]
      ensures mtx == historyMtx[|historyMtx| - 1]
    {
      var last := historyBeatSeries[|historyBeatSeries| - 1];
      var beatSeries := if 1 < last then last else 1;
      ghost var n := PopCount(historyBeatSeries);
      ghost var size := |historyMtx|;
      while beatSeries != 0 && |historyMtx| > 1
        invariant 1 <= |historyMtx| <= size && Valid()
        invariant beatSeries >= 0
        invariant historyMtx == old(historyMtx)[..|historyMtx|]
        invariant historyBeatSeries == old(historyBeatSeries)[..|historyMtx|]
        invariant size - |historyMtx| <= n
        invariant beatSeries == (if 1 < last then last else 1) - (size - |historyMtx|)
        decreases beatSeries
      {
        beatSeries := beatSeries - 1;
        historyMtx := historyMtx[..|historyMtx| - 1];
        historyBeatSeries := historyBeatSeries[..|historyBeatSeries| - 1];
      }
      mtx := historyMtx[|historyMtx| - 1];
    }
  }

  // ---------------------------------------------------------------------
  // The start layout
  // ---------------------------------------------------------------------

  /** Twelve men a side on the dark cells, black on top, white at the bottom,
      and no king. */
  lemma StartLayout()
    ensures forall i, j :: InBounds(i, j) && (i + j) % 2 == 0 ==> StartGrid()[i][j] == 0
    ensures forall i, j :: InBounds(i, j) && 3 <= i <= 4 ==> StartGrid()[i][j] == 0
    ensures forall i, j :: InBounds(i, j) && StartGrid()[i][j] != 0 ==> IsMan(StartGrid()[i][j])
    ensures forall i, j :: InBounds(i, j) && Owns(StartGrid()[i][j], false) ==> i >= 5
    ensures forall i, j :: InBounds(i, j) && Owns(StartGrid()[i][j], true) ==> i <= 2
  {
  }

  /** At the start no piece of either side can capture: the two camps are
      three rows apart and a man only jumps an adjacent enemy. */
  lemma StartHasNoCapture(color: bool)
    ensures !SideHasBeats(StartGrid(), color)
  {
    var g := StartGrid();
    StartLayout();
    SideHasBeatsExact(g, color);
  }

  /** White, who moves first, has a legal opening move, so a game never ends
      before it starts. */
  lemma StartWhiteCanMove()
    ensures Simple(5, 0, 4, 1) in SideMoves(StartGrid(), false)
  {
    var g := StartGrid();
    StartLayout();
    StartHasNoCapture(false);
    SideHasBeatsExact(g, false);
    var m: BoardMove := Simple(5, 0, 4, 1);
    assert IsManStep(g, 5, 0, m);
    SideMovesExact(g, false, m);
  }
}
