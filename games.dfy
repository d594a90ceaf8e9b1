/** The turn bookkeeping of a game (Game/Game.h): whose turn it is, how a bot's
    chain of moves and a human's clicks are applied to the board, how Back
    rewinds, and the final result code. The player's clicks are a queue of
    input events; the configuration values are parameters; the bot's search
    is not part of this model, its answer for a turn is a parameter. */
module Games {
  import opened Moves
  import opened Grids
  import opened Rules
  import opened RuleFacts
  import opened Boards

  /** What the input yields. NoInput stands for an input queue that has run
      dry, where the program would wait for the next event forever. */
  datatype Response = Ok | Back | Replay | Quit | Cell | NoInput

  /** One input event: the window being closed, or a click already turned
      into board coordinates, the row -1 holding the Back (column -1) and
      Replay (column 8) buttons. */
  datatype Click = CloseWindow | ClickAt(xc: int, yc: int)

  /** How a call to play ends. Replay and the wait for a click after the
      final position stop the model; Aborted is an exception that move_piece
      throws for a bot's move, which nothing catches. */
  datatype GameEnd = Finished(code: int) | Quitted | Replayed | OutOfInput | Aborted(error: BoardError)

  /** How one turn of the loop in play ends. */
  datatype TurnResult = Continue | Stuck | Stop(end: GameEnd)

  /** The C++ remainder, which truncates toward zero. */
  function CRem(a: int, b: int): (r: int)
    requires b > 0
    ensures -b < r < b
    ensures a >= 0 ==> r == a % b
  {
    if a >= 0 then a % b else -((-a) % b)
  }

  /** The colour flag of turn t: turn_num % 2 converted to bool, so turn 0
      moves white (the odd pieces). */
  predicate TurnColor(t: int) {
    CRem(t, 2) != 0
  }

  /** Consecutive turns belong to opposite sides, for negative turn numbers
      too, and turn 0 is white's. */
  lemma TurnColorAlternates(t: int)
    ensures TurnColor(t + 1) != TurnColor(t)
    ensures !TurnColor(0) && forall v: Cell :: Owns(v, TurnColor(0)) <==> v % 2 == 1
  {
  }

  /** The result play computes: 0 (draw) when the turn limit was reached,
      else 1 when the side to move was black, else 2. */
  function ResultCode(turnNum: int, maxTurns: int): (r: int)
    ensures r == 0 <==> turnNum == maxTurns
    ensures r == 1 <==> turnNum != maxTurns && TurnColor(turnNum)
    ensures r == 2 <==> turnNum != maxTurns && !TurnColor(turnNum)
  {
    if turnNum == maxTurns then 0 else if CRem(turnNum, 2) != 0 then 1 else 2
  }

  /** The flag play consults on Back: the bot setting of black when
      1 - turnNum % 2 is nonzero, of white otherwise. For a turn number that
      is not negative this is the opponent of the side to move. */
  predicate OpponentIsBot(turnNum: int, whiteIsBot: bool, blackIsBot: bool) {
    if 1 - CRem(turnNum, 2) != 0 then blackIsBot else whiteIsBot
  }

  lemma OpponentFlag(turnNum: int, whiteIsBot: bool, blackIsBot: bool)
    requires turnNum >= 0
    ensures OpponentIsBot(turnNum, whiteIsBot, blackIsBot) == (if TurnColor(turnNum) then whiteIsBot else blackIsBot)
  {
  }

  /** The turn number play holds after Back, before its loop increments it:
      one step back mid-series (beat series not 0); otherwise two, and three
      when the opponent is a bot and the history holds more than two grids. */
  function BackTurn(t: int, beatSeries: int, opponentIsBot: bool, historySize: int): (r: int)
    ensures beatSeries != 0 ==> r == t - 1
    ensures beatSeries == 0 ==> r == (if opponentIsBot && historySize > 2 then t - 3 else t - 2)
  {
    var t1 := if opponentIsBot && beatSeries == 0 && historySize > 2 then t - 1 else t;
    var t2 := if beatSeries == 0 then t1 - 1 else t1;
    t2 - 1
  }

  // ---------------------------------------------------------------------
  // Matching clicks against the legal moves (Game.h:189-203, 286-294)
  // ---------------------------------------------------------------------

  /** What a click on (cx, cy) means while (x, y) is selected: the source of
      a legal move (re-select), a legal move from (x, y) to (cx, cy), or
      nothing. */
  datatype Hit = SourceHit | TargetHit(m: BoardMove) | Miss

  method FindSelection(turns: seq<BoardMove>, x: int, y: int, cx: int, cy: int) returns (hit: Hit)
    ensures hit.TargetHit? ==> hit.m in turns && Same(hit.m, Simple(x, y, cx, cy))
    ensures hit.SourceHit? ==> exists t :: t in turns && t.x == cx && t.y == cy
    ensures hit == Miss <==> forall t :: t in turns ==> !(t.x == cx && t.y == cy) && !Same(t, Simple(x, y, cx, cy))
  {
    hit := Miss;
    var k := 0;
    while k < |turns|
      invariant 0 <= k <= |turns|
      invariant forall p :: 0 <= p < k ==> !(turns[p].x == cx && turns[p].y == cy) && !Same(turns[p], Simple(x, y, cx, cy))
    {
      var t := turns[k];
      if t.x == cx && t.y == cy {
        return SourceHit;
      }
      if Same(t, Simple(x, y, cx, cy)) {
        return TargetHit(t);
      }
      k := k + 1;
    }
  }

  /** The first of the moves that lands on (cx, cy), if any. */
  method FindLanding(turns: seq<BoardMove>, cx: int, cy: int) returns (found: bool, m: BoardMove)
    ensures found ==> m in turns && m.x2 == cx && m.y2 == cy
    ensures found <==> exists t :: t in turns && t.x2 == cx && t.y2 == cy
  {
    found, m := false, MovePos(0, 0, 0, 0, -1, -1);
    for k := 0 to |turns|
      invariant forall p :: 0 <= p < k ==> !(turns[p].x2 == cx && turns[p].y2 == cy)
    {
      if turns[k].x2 == cx && turns[k].y2 == cy {
        return true, turns[k];
      }
    }
  }

  // ---------------------------------------------------------------------
  // A chain of moves applied one after the other (Game.h:140-149)
  // ---------------------------------------------------------------------

  /** The grid after the moves of ms, each applied with make_turn. */
  function ApplyChain(g: Grid, ms: seq<BoardMove>): Grid {
    if ms == [] then g else MakeTurn(ApplyChain(g, ms[..|ms| - 1]), ms[|ms| - 1])
  }

  /** Every move of ms passes move_piece's checks on the grid it meets. */
  predicate ChainApplicable(g: Grid, ms: seq<BoardMove>) {
    ms == [] || (ChainApplicable(g, ms[..|ms| - 1]) && Applicable(ApplyChain(g, ms[..|ms| - 1]), ms[|ms| - 1]))
  }

  function CaptureCount(ms: seq<BoardMove>): nat {
    if ms == [] then 0 else CaptureCount(ms[..|ms| - 1]) + (if IsCapture(ms[|ms| - 1]) then 1 else 0)
  }

  /** The beat series recorded for each move of a bot's chain: the running
      count of captures, starting from b. */
  function RunningCounts(b: int, ms: seq<BoardMove>): seq<int> {
    if ms == [] then [] else RunningCounts(b, ms[..|ms| - 1]) + [b + CaptureCount(ms)]
  }

  /** Entry k of the running counts is b plus the captures among the first
      k + 1 moves: it grows by one exactly at each capture. */
  lemma {:induction false} RunningCountsShape(b: int, ms: seq<BoardMove>)
    ensures |RunningCounts(b, ms)| == |ms|
    ensures forall k :: 0 <= k < |ms| ==> RunningCounts(b, ms)[k] == b + CaptureCount(ms[..k + 1])
    ensures forall k :: 0 < k < |ms| ==>
      RunningCounts(b, ms)[k] == RunningCounts(b, ms)[k - 1] + (if IsCapture(ms[k]) then 1 else 0)
  {
    if ms != [] {
      var p := ms[..|ms| - 1];
      RunningCountsShape(b, p);
      assert RunningCounts(b, ms) == RunningCounts(b, p) + [b + CaptureCount(ms)];
      forall k | 0 <= k < |ms|
        ensures RunningCounts(b, ms)[k] == b + CaptureCount(ms[..k + 1])
      {
        if k < |p| {
          assert p[..k + 1] == ms[..k + 1];
        } else {
          assert ms[..k + 1] == ms;
        }
      }
      forall k | 0 < k < |ms|
        ensures CaptureCount(ms[..k + 1]) == CaptureCount(ms[..k]) + (if IsCapture(ms[k]) then 1 else 0)
      {
        assert ms[..k + 1][..k] == ms[..k];
      }
    }
  }

  /** A chain of captures started from count 0 records 1, 2, ..., k, which
      is exactly what one rollback undoes. */
  lemma {:induction false} CaptureChainCounts(ms: seq<BoardMove>)
    requires forall k :: 0 <= k < |ms| ==> IsCapture(ms[k])
    ensures CaptureCount(ms) == |ms|
    ensures RunningCounts(0, ms) == Series(1, |ms|)
  {
    if ms != [] {
      CaptureChainCounts(ms[..|ms| - 1]);
    }
  }

  /** What one input event means to get_cell, given the height of the
      history: closing the window quits; the cell (-1, -1) is Back while the
      history holds more than the start layout; (-1, 8) is Replay; a cell of
      the board is Cell; anything else means nothing (the source's OK). */
  function ClickResponse(e: Click, historySize: int): (r: Response)
    ensures r == Quit <==> e == CloseWindow
    ensures r == Back <==> e == ClickAt(-1, -1) && historySize > 1
    ensures r == Replay <==> e == ClickAt(-1, 8)
    ensures r == Cell <==> e.ClickAt? && InBounds(e.xc, e.yc)
    ensures r == Quit || r == Back || r == Replay || r == Cell || r == Response.Ok
  {
    match e
    case CloseWindow => Quit
    case ClickAt(i, j) =>
      if i == -1 && j == -1 && historySize > 1 then Back
      else if i == -1 && j == 8 then Replay
      else if InBounds(i, j) then Cell
      else Response.Ok
  }

  class Game {
    const board: Board
    const logic: Logic
    var beatSeries: int
    var input: seq<Click>
    /** The turn numbers play's loop has handed out, in order. */
    ghost var turnLog: seq<int>

    constructor (clicks: seq<Click>)
      ensures fresh(board) && fresh(logic)
      ensures board.historyMtx == [] && board.historyBeatSeries == [] && input == clicks
    {
      board := new Board();
      logic := new Logic();
      beatSeries := 0;
      input := clicks;
      turnLog := [];
    }

    /** Hand.get_cell: read events until one means something (the source's
        `resp` leaves OK). The events read are a prefix of the queue: all but
        the last meant nothing, and the last one gives the response. */
    method GetCell() returns (resp: Response, xc: int, yc: int)
      modifies this
      ensures beatSeries == old(beatSeries)
      ensures resp == Quit || resp == Back || resp == Replay || resp == Cell || resp == NoInput
      ensures resp == Cell ==> InBounds(xc, yc)
      ensures resp == Back ==> |board.historyMtx| > 1
      ensures |input| <= old(|input|) && (resp != NoInput ==> |input| < old(|input|))
      ensures input == old(input)[|old(input)| - |input|..]
      ensures var n := |old(input)| - |input|;
              forall p :: 0 <= p < n - 1 ==> ClickResponse(old(input)[p], |board.historyMtx|) == Response.Ok
      ensures resp == NoInput ==>
                input == [] && forall p :: 0 <= p < |old(input)| ==> ClickResponse(old(input)[p], |board.historyMtx|) == Response.Ok
      ensures resp != NoInput ==> resp == ClickResponse(old(input)[|old(input)| - |input| - 1], |board.historyMtx|)
      ensures resp == Cell ==> old(input)[|old(input)| - |input| - 1] == ClickAt(xc, yc)
    {
      while input != []
        invariant beatSeries == old(beatSeries) && |input| <= old(|input|)
        invariant input == old(input)[|old(input)| - |input|..]
        invariant forall p :: 0 <= p < |old(input)| - |input| ==> ClickResponse(old(input)[p], |board.historyMtx|) == Response.Ok
        decreases |input|
      {
        var e := input[0];
        assert e == old(input)[|old(input)| - |input|];
        input := input[1..];
        resp := ClickResponse(e, |board.historyMtx|);
        if resp != Response.Ok {
          if resp == Cell {
            return resp, e.xc, e.yc;
          }
          return resp, -1, -1;
        }
      }
      return NoInput, -1, -1;
    }

    /** play: set up the start layout, then give turns alternately to white
        (even turn numbers) and black (odd ones) until the turn limit, a side
        without a legal move, or a response that leaves the game. The bot's
        chain for a position is bot(g, color). On a finished game code 1
        shows white winning and code 2 black winning (Board.h:357-360): the
        side to move had no move. */
    method Play(maxTurns: int, whiteIsBot: bool, blackIsBot: bool, bot: (Grid, bool) -> seq<BoardMove>)
      returns (end: GameEnd, ghost turnNum: int)
      modifies this, board, logic
      ensures !end.Aborted? ==> board.Synced()
      ensures end.Finished? ==> end.code == ResultCode(turnNum, maxTurns)
      ensures end == Finished(0) ==>
                turnNum == maxTurns
                && (maxTurns == 0 || (|turnLog| > |old(turnLog)| && turnLog[|turnLog| - 1] == maxTurns - 1))
      ensures end == Finished(1) ==>
                TurnColor(turnNum) && SideMoves(board.mtx, true) == []
                && |turnLog| > |old(turnLog)| && turnLog[|turnLog| - 1] == turnNum
      ensures end == Finished(2) ==>
                (maxTurns < 0 && turnNum == 0 && turnLog == old(turnLog))
                || (!TurnColor(turnNum) && SideMoves(board.mtx, false) == []
                    && |turnLog| > |old(turnLog)| && turnLog[|turnLog| - 1] == turnNum)
    {
      board.Redraw();
      var t := 0;
      while t < maxTurns
        invariant board.Synced()
        invariant t <= maxTurns || (t == 0 && maxTurns < 0)
        invariant |turnLog| >= |old(turnLog)|
        invariant |turnLog| == |old(turnLog)| ==> t == 0 && turnLog == old(turnLog)
        invariant |turnLog| > |old(turnLog)| ==> t <= turnLog[|turnLog| - 1] + 1 && turnLog[|turnLog| - 1] < maxTurns
        decreases |input|, maxTurns - t
      {
        var next, t2 := TakeTurn(t, whiteIsBot, blackIsBot, bot);
        if next == Stuck {
          return Finished(ResultCode(t, maxTurns)), t;
        } else if next.Stop? {
          return next.end, t;
        }
        t := t2;
      }
      return Finished(ResultCode(t, maxTurns)), t;
    }

    /** One pass of play's loop for turn number t: the side to move has no
        legal move (Stuck), the game stops with a response or an error
        (Stop), or the loop goes on with the returned turn number. */
    method TakeTurn(t: int, whiteIsBot: bool, blackIsBot: bool, bot: (Grid, bool) -> seq<BoardMove>)
      returns (next: TurnResult, t2: int)
      requires board.Synced()
      modifies this, board, logic
      ensures t2 <= t + 1 && (next.Stop? ==> !next.end.Finished?)
      ensures !(next.Stop? && next.end.Aborted?) ==> board.Synced()
      ensures next == Stuck <==> SideMoves(old(board.mtx), TurnColor(t)) == []
      ensures next == Stuck ==> board.mtx == old(board.mtx)
      ensures next == Continue ==> |input| < old(|input|) || (input == old(input) && t2 == t + 1)
      ensures turnLog == old(turnLog) + [t]
      ensures var color := TurnColor(t);
              SideMoves(old(board.mtx), color) != [] && (if color then blackIsBot else whiteIsBot) ==>
                input == old(input) && t2 == t + 1
                && (next.Stop? <==> !ChainApplicable(old(board.mtx), bot(old(board.mtx), color)))
                && (next.Stop? ==> next.end.Aborted?)
                && (next == Continue ==> board.mtx == ApplyChain(old(board.mtx), bot(old(board.mtx), color)))
      ensures var color := TurnColor(t);
              SideMoves(old(board.mtx), color) != [] && !(if color then blackIsBot else whiteIsBot) ==>
                !(next.Stop? && next.end.Aborted?)
    {
      ghost var log := turnLog + [t];
      t2 := t + 1;
      beatSeries := 0;
      var color := TurnColor(t);
      var stuck := FindSide(color);
      if stuck {
        turnLog := log;
        return Stuck, t2;
      }
      var isBot := if color then blackIsBot else whiteIsBot;
      if isBot {
        next := BotBranch(color, bot);
        turnLog := log;
        return;
      }
      var n, t3, _, _, _, _, _, _ := HumanTurn(t, color, whiteIsBot, blackIsBot);
      next, t2 := n, t3;
      turnLog := log;
    }

    /** The move list of play's loop: logic.turns becomes the side's legal
        moves, and the side is stuck exactly when it has none. */
    method FindSide(color: bool) returns (stuck: bool)
      modifies logic
      ensures stuck <==> SideMoves(board.mtx, color) == []
      ensures forall m :: m in logic.turns ==> m in SideMoves(board.mtx, color)
    {
      logic.FindSideTurns(color, board.GetBoard());
      assert |SideMoves(board.mtx, color)| == |multiset(logic.turns)| == |logic.turns|;
      forall m | m in logic.turns
        ensures m in SideMoves(board.mtx, color)
      {
        assert m in multiset(logic.turns);
      }
      stuck := logic.turns == [];
    }

    /** The bot branch of play's loop: the bot's chain for the grid is played
        by bot_turn; a refused move ends the game with Aborted, since nothing
        in the source catches move_piece's exception. */
    method BotBranch(color: bool, bot: (Grid, bool) -> seq<BoardMove>) returns (next: TurnResult)
      requires board.Synced()
      modifies this, board
      ensures input == old(input) && next != Stuck
      ensures next.Stop? <==> !ChainApplicable(old(board.mtx), bot(old(board.mtx), color))
      ensures next.Stop? ==> next.end.Aborted?
      ensures next == Continue ==> board.Synced() && board.mtx == ApplyChain(old(board.mtx), bot(old(board.mtx), color))
    {
      var r := BotTurn(bot(board.GetBoard(), color));
      if r.Err? {
        return Stop(Aborted(r.error));
      }
      return Continue;
    }

    /** The human branch of play's loop: a player turn, then the response
        handled as play handles it. */
    method HumanTurn(t: int, color: bool, whiteIsBot: bool, blackIsBot: bool)
      returns (next: TurnResult, t2: int, ghost resp: Response, ghost beat: int, ghost size: int,
               ghost first: BoardMove, ghost src: int, ghost sel: int)
      requires board.Synced() && beatSeries == 0
      requires forall m :: m in logic.turns ==> m in SideMoves(board.mtx, color)
      modifies this, board, logic
      ensures board.Synced() && t2 <= t + 1 && next != Stuck && (next.Stop? ==> !next.end.Finished? && !next.end.Aborted?)
      ensures next == Continue ==> |input| < old(|input|)
      ensures resp == Quit <==> next == Stop(Quitted)
      ensures resp == Replay <==> next == Stop(Replayed)
      ensures resp == NoInput <==> next == Stop(OutOfInput)
      ensures next == Continue <==> resp == Response.Ok || resp == Back
      ensures resp != Back ==> t2 == t + 1
      ensures resp == Back ==> t2 == BackTurn(t, beat, OpponentIsBot(t, whiteIsBot, blackIsBot), size) + 1 && beatSeries == 0
      ensures resp == Back ==> 0 <= beat && size == |old(board.historyMtx)| + beat
      ensures resp == Back && beat != 0 ==>
                t2 == t && board.historyMtx == old(board.historyMtx)
                && board.historyBeatSeries == old(board.historyBeatSeries)
      ensures resp == Back && beat == 0 ==>
                |board.historyMtx| < |old(board.historyMtx)|
                && board.historyMtx == old(board.historyMtx)[..|board.historyMtx|]
      ensures resp == Response.Ok ==>
                HumanMoved(old(board.mtx), color, old(board.historyMtx), board.historyMtx, old(input), src, sel, first)
    {
      t2 := t + 1;
      beat, size := 0, 0;
      var r;
      ghost var moved, last;
      r, moved, first, last, src, sel := PlayerTurn(color);
      resp := r;
      if r == Quit {
        next := Stop(Quitted);
        return;
      } else if r == Replay {
        next := Stop(Replayed);
        return;
      } else if r == NoInput {
        next := Stop(OutOfInput);
        return;
      } else if r == Back {
        beat, size := beatSeries, |board.historyMtx|;
        if beatSeries != 0 {
          PopCountUndoesChain(old(board.historyBeatSeries), beatSeries);
        }
        var back := StepBack(t, whiteIsBot, blackIsBot);
        t2 := back + 1;
      }
      next := Continue;
    }

    /** The Back branch of play. A Back given in the middle of a capture
        series undoes that series and the same player moves again; otherwise
        the player's previous turn is undone as well, and also the bot's turn
        before it when the opponent is a bot and the history holds more than
        two grids. Returns the turn number the loop then increments. */
    method StepBack(t: int, whiteIsBot: bool, blackIsBot: bool) returns (t2: int)
      requires board.Synced()
      modifies this, board
      ensures board.Synced() && beatSeries == 0 && input == old(input)
      ensures var h, hs := old(board.historyMtx), old(board.historyBeatSeries);
              var h1, hs1 := h[..|h| - PopCount(hs)], hs[..|hs| - PopCount(hs)];
              t2 == BackTurn(t, old(beatSeries), OpponentIsBot(t, whiteIsBot, blackIsBot), |h|)
              && if old(beatSeries) == 0 && OpponentIsBot(t, whiteIsBot, blackIsBot) && |h| > 2 then
                board.historyMtx == h1[..|h1| - PopCount(hs1)]
                && board.historyBeatSeries == hs1[..|hs1| - PopCount(hs1)]
              else
                board.historyMtx == h1 && board.historyBeatSeries == hs1
    {
      t2 := t;
      if OpponentIsBot(t, whiteIsBot, blackIsBot) && beatSeries == 0 && |board.historyMtx| > 2 {
        board.Rollback();
        t2 := t2 - 1;
      }
      if beatSeries == 0 {
        t2 := t2 - 1;
      }
      board.Rollback();
      t2 := t2 - 1;
      beatSeries := 0;
    }

    /** bot_turn: apply the bot's moves in order, each with the running count
        of captures so far as its beat series. A move that move_piece refuses
        ends the game with that error. */
    method BotTurn(turns: seq<BoardMove>) returns (r: Outcome)
      requires board.Valid()
      modifies this, board
      ensures board.Valid() && input == old(input)
      ensures r.Ok? <==> ChainApplicable(old(board.mtx), turns)
      ensures r.Ok? ==> board.mtx == ApplyChain(old(board.mtx), turns)
                        && beatSeries == old(beatSeries) + CaptureCount(turns)
                        && board.historyBeatSeries == old(board.historyBeatSeries) + RunningCounts(old(beatSeries), turns)
                        && |board.historyMtx| == |old(board.historyMtx)| + |turns|
      ensures old(board.Synced()) && r.Ok? ==> board.Synced()
    {
      ghost var g, b, hb, n := board.mtx, beatSeries, board.historyBeatSeries, |board.historyMtx|;
      r := Outcome.Ok;
      for k := 0 to |turns|
        invariant board.Valid() && input == old(input) && r.Ok?
        invariant GridChain(g, turns, k, board.mtx) && |board.historyMtx| == n + k
        invariant CountChain(b, hb, turns, k, beatSeries, board.historyBeatSeries)
        invariant old(board.Synced()) ==> board.Synced()
      {
        ghost var mtx, beat, hbs := board.mtx, beatSeries, board.historyBeatSeries;
        r := PlayBotMove(turns[k]);
        if r.Err? {
          ChainBreaks(g, turns, k);
          return;
        }
        GridChainAdvance(g, turns, k, mtx, board.mtx);
        CountChainAdvance(b, hb, turns, k, beat, hbs, beatSeries, board.historyBeatSeries);
      }
      assert turns[..|turns|] == turns;
    }

    /** One pass of bot_turn's loop: count the move if it captures, then
        make it with the running count as its beat series. */
    method PlayBotMove(turn: BoardMove) returns (r: Outcome)
      requires board.Valid()
      modifies this, board
      ensures board.Valid() && input == old(input)
      ensures beatSeries == old(beatSeries) + (if IsCapture(turn) then 1 else 0)
      ensures r.Ok? <==> Applicable(old(board.mtx), turn)
      ensures r.Ok? ==> board.mtx == MakeTurn(old(board.mtx), turn)
                        && board.historyBeatSeries == old(board.historyBeatSeries) + [beatSeries]
                        && board.historyMtx == old(board.historyMtx) + [board.mtx]
    {
      beatSeries := beatSeries + (if turn.xb != -1 then 1 else 0);
      r := board.MovePiece(turn, beatSeries);
    }

    /** player_turn: the human picks a source and a destination by clicks
        until the pair is a legal move; a capture then continues from the
        landing cell, one click per capture, for as long as a capture is
        open there. */
    method PlayerTurn(color: bool)
      returns (resp: Response, ghost moved: bool, ghost first: BoardMove, ghost last: BoardMove, ghost src: int, ghost sel: int)
      requires board.Synced()
      requires forall m :: m in logic.turns ==> m in SideMoves(board.mtx, color)
      modifies this, board, logic
      ensures board.Synced()
      ensures resp != Cell
      ensures resp != NoInput ==> |input| < old(|input|)
      ensures !moved ==> resp != Response.Ok && beatSeries == old(beatSeries)
                         && board.historyMtx == old(board.historyMtx)
                         && board.historyBeatSeries == old(board.historyBeatSeries)
                         && (resp == Back ==> |board.historyMtx| > 1)
      ensures moved ==> first in SideMoves(old(board.mtx), color)
                        && |board.historyMtx| > |old(board.historyMtx)|
                        && board.historyMtx[|old(board.historyMtx)|] == MakeTurn(old(board.mtx), first)
      ensures moved ==> Selected(old(input), src, sel, first, |old(board.historyMtx)|)
      ensures moved && !IsCapture(first) ==>
                resp == Response.Ok && beatSeries == old(beatSeries)
                && board.historyMtx == old(board.historyMtx) + [MakeTurn(old(board.mtx), first)]
                && board.historyBeatSeries == old(board.historyBeatSeries) + [0]
      ensures moved && IsCapture(first) ==>
                1 <= beatSeries && |board.historyMtx| == |old(board.historyMtx)| + beatSeries
                && board.historyMtx[..|old(board.historyMtx)|] == old(board.historyMtx)
                && board.historyBeatSeries == old(board.historyBeatSeries) + Series(1, beatSeries)
      ensures moved && IsCapture(first) ==> IsCapture(last) && MadeLast(board.historyMtx, board.mtx, last)
      ensures moved && IsCapture(first) && resp == Response.Ok ==>
                InBounds(last.x2, last.y2) && PieceMoves(board.mtx, last.x2, last.y2, Captures) == []
    {
      moved, first, last, sel := false, MovePos(0, 0, 0, 0, -1, -1), MovePos(0, 0, 0, 0, -1, -1), 0;
      forall m | m in logic.turns
        ensures InBounds(m.x, m.y)
      {
        SideMoveApplicable(board.mtx, color, m);
      }
      var picked, pos;
      picked, pos, src := SelectMove();
      if picked != Cell {
        return picked, moved, first, last, src, sel;
      }
      sel := |old(input)| - |input|;
      assert Selected(old(input), src, sel, pos, |old(board.historyMtx)|);
      moved, first := true, pos;
      resp, last := MakeMove(color, pos);
    }

    /** The second half of player_turn: make the selected move and, after a
        capture, go on capturing with the same piece. */
    method MakeMove(color: bool, pos: BoardMove) returns (resp: Response, ghost last: BoardMove)
      requires board.Synced() && pos in SideMoves(board.mtx, color)
      modifies this, board, logic
      ensures board.Synced() && resp != Cell && |input| <= old(|input|)
      ensures |board.historyMtx| > |old(board.historyMtx)|
              && board.historyMtx[|old(board.historyMtx)|] == MakeTurn(old(board.mtx), pos)
      ensures !IsCapture(pos) ==>
                resp == Response.Ok && beatSeries == old(beatSeries)
                && board.historyMtx == old(board.historyMtx) + [MakeTurn(old(board.mtx), pos)]
                && board.historyBeatSeries == old(board.historyBeatSeries) + [0]
      ensures IsCapture(pos) ==>
                1 <= beatSeries && |board.historyMtx| == |old(board.historyMtx)| + beatSeries
                && board.historyMtx[..|old(board.historyMtx)|] == old(board.historyMtx)
                && board.historyBeatSeries == old(board.historyBeatSeries) + Series(1, beatSeries)
      ensures IsCapture(pos) ==> IsCapture(last) && MadeLast(board.historyMtx, board.mtx, last)
      ensures IsCapture(pos) && resp == Response.Ok ==>
                InBounds(last.x2, last.y2) && PieceMoves(board.mtx, last.x2, last.y2, Captures) == []
    {
      ghost var hm, hb := board.historyMtx, board.historyBeatSeries;
      FirstMove(color, pos);
      last := pos;
      if pos.xb == -1 {
        return Response.Ok, last;
      }
      beatSeries := 1;
      assert board.historyBeatSeries == hb + Series(1, 1);
      resp, last := ContinueCaptures(pos, hm, hb);
    }

    /** The move chosen by the selection loop, made with beat series 1 for a
        capture and 0 otherwise: it is legal, so move_piece accepts it. */
    method FirstMove(color: bool, pos: BoardMove)
      requires board.Synced() && pos in SideMoves(board.mtx, color)
      modifies board
      ensures board.Synced()
      ensures board.mtx == MakeTurn(old(board.mtx), pos) && board.mtx[pos.x2][pos.y2] != 0
      ensures board.historyMtx == old(board.historyMtx) + [board.mtx]
      ensures board.historyBeatSeries == old(board.historyBeatSeries) + [if IsCapture(pos) then 1 else 0]
      ensures MadeLast(board.historyMtx, board.mtx, pos)
    {
      ghost var h, g := board.historyMtx, board.mtx;
      SideMoveApplicable(board.mtx, color, pos);
      MakeTurnLands(board.mtx, pos);
      var out := board.MovePiece(pos, if pos.xb != -1 then 1 else 0);
      assert out.Ok?;
      MadeLastPush(h, pos, g, board.mtx);
    }

    /** The capture continuation of player_turn: after a capture the same
        piece keeps capturing, one click per capture, while its landing cell
        offers one; each capture is recorded with the next beat series. */
    method ContinueCaptures(pos: BoardMove, ghost hm: seq<Grid>, ghost hb: seq<int>) returns (resp: Response, ghost last: BoardMove)
      requires board.Synced() && 1 <= beatSeries
      requires InBounds(pos.x2, pos.y2) && board.mtx[pos.x2][pos.y2] != 0
      requires |board.historyMtx| == |hm| + beatSeries && board.historyMtx[..|hm|] == hm
      requires board.historyBeatSeries == hb + Series(1, beatSeries)
      requires IsCapture(pos) && MadeLast(board.historyMtx, board.mtx, pos)
      modifies this, board, logic
      ensures board.Synced() && 1 <= beatSeries && resp != Cell && |input| <= old(|input|)
      ensures |board.historyMtx| == |hm| + beatSeries && board.historyMtx[..|hm|] == hm
      ensures board.historyMtx[|hm|] == old(board.historyMtx)[|hm|]
      ensures board.historyBeatSeries == hb + Series(1, beatSeries)
      ensures IsCapture(last) && MadeLast(board.historyMtx, board.mtx, last)
      ensures resp == Response.Ok ==> InBounds(last.x2, last.y2) && PieceMoves(board.mtx, last.x2, last.y2, Captures) == []
    {
      var cur := pos;
      ghost var first := board.historyMtx[|hm|];
      while true
        invariant board.Synced() && 1 <= beatSeries
        invariant SeriesChain(hm, hb, board.historyMtx, board.historyBeatSeries, beatSeries)
        invariant board.historyMtx[|hm|] == first
        invariant InBounds(cur.x2, cur.y2) && board.mtx[cur.x2][cur.y2] != 0
        invariant IsCapture(cur) && MadeLast(board.historyMtx, board.mtx, cur)
        invariant |input| <= old(|input|)
        decreases |input|
      {
        ghost var hs, h, g, b := board.historyMtx, board.historyBeatSeries, board.mtx, beatSeries;
        assert SeriesChain(hm, hb, hs, h, b) && |hs| >= 1 && hs[|hs| - 1] == g;
        var r, captured, next := NextCapture(cur);
        if !captured {
          return r, cur;
        }
        SeriesChainAdvance(hm, hb, hs, h, b, board.historyMtx, board.historyBeatSeries, beatSeries);
        MadeLastPush(hs, next, g, board.mtx);
        cur := next;
      }
    }

    /** The selection loop of player_turn: clicks select a source (any cell
        a legal move starts from) and then a destination, until the pair is
        a legal move by its endpoints. Any other response ends the turn. */
    method SelectMove() returns (resp: Response, pos: BoardMove, ghost src: int)
      requires forall m :: m in logic.turns ==> InBounds(m.x, m.y)
      modifies this
      ensures beatSeries == old(beatSeries)
      ensures resp == Quit || resp == Back || resp == Replay || resp == Cell || resp == NoInput
      ensures resp == Cell ==> pos in logic.turns
      ensures resp == Back ==> |board.historyMtx| > 1
      ensures resp != NoInput ==> |input| < old(|input|)
      ensures |input| <= |old(input)| && input == old(input)[|old(input)| - |input|..]
      ensures resp == Cell ==> Selected(old(input), src, |old(input)| - |input|, pos, |board.historyMtx|)
    {
      var x, y := -1, -1;
      ghost var q, size := input, |board.historyMtx|;
      src := 0;
      while true
        invariant beatSeries == old(beatSeries) && |input| <= |q| && input == q[|q| - |input|..]
        invariant size == |board.historyMtx|
        invariant x != -1 ==> |input| < |q| && q[|q| - |input| - 1] == ClickAt(x, y)
        decreases |input|
      {
        ghost var before := input;
        var r, cx, cy := GetCell();
        Consumed(q, before, input);
        if r != Cell {
          return r, MovePos(0, 0, 0, 0, -1, -1), src;
        }
        var hit := FindSelection(logic.turns, x, y, cx, cy);
        if hit.TargetHit? {
          SkippedBetween(q, before, input, size);
          return Cell, hit.m, |q| - |before| - 1;
        }
        if hit == Miss {
          x, y := -1, -1;
          continue;
        }
        x, y := cx, cy;
      }
    }

    /** One round of the capture continuation: look up the captures of the
        piece that landed on (pos.x2, pos.y2); with none the turn is over
        (Ok); otherwise wait for a click on one of their landing cells and
        make that capture with the next beat series. Any other response
        ends the turn. */
    method NextCapture(pos: BoardMove) returns (resp: Response, captured: bool, next: BoardMove)
      requires board.Synced() && InBounds(pos.x2, pos.y2) && board.mtx[pos.x2][pos.y2] != 0
      modifies this, board, logic
      ensures board.Synced() && |input| <= old(|input|)
      ensures !captured ==> beatSeries == old(beatSeries) && board.mtx == old(board.mtx)
                            && board.historyMtx == old(board.historyMtx)
                            && board.historyBeatSeries == old(board.historyBeatSeries)
      ensures !captured ==> resp != Cell
      ensures !captured && resp == Response.Ok ==> PieceMoves(board.mtx, pos.x2, pos.y2, Captures) == []
      ensures captured ==> |input| < old(|input|)
                           && next in PieceMoves(old(board.mtx), pos.x2, pos.y2, Captures)
                           && beatSeries == old(beatSeries) + 1
                           && board.mtx == MakeTurn(old(board.mtx), next)
                           && board.historyMtx == old(board.historyMtx) + [board.mtx]
                           && board.historyBeatSeries == old(board.historyBeatSeries) + [beatSeries]
                           && InBounds(next.x2, next.y2) && board.mtx[next.x2][next.y2] != 0
      ensures captured ==> IsCapture(next) && next.x == pos.x2 && next.y == pos.y2
      ensures input == old(input)[|old(input)| - |input|..]
      ensures captured ==> old(input)[|old(input)| - |input| - 1] == ClickAt(next.x2, next.y2)
    {
      next := pos;
      logic.FindPieceTurns(pos.x2, pos.y2, board.GetBoard());
      if !logic.haveBeats {
        return Response.Ok, false, next;
      }
      var r, m := PickLanding();
      if r != Cell {
        return r, false, next;
      }
      MakeCapture(pos, m);
      return Cell, true, m;
    }

    /** The capture clicked in the continuation, made with the next beat
        series: it is one of the piece's captures, so move_piece accepts it. */
    method MakeCapture(pos: BoardMove, m: BoardMove)
      requires board.Synced() && InBounds(pos.x2, pos.y2) && board.mtx[pos.x2][pos.y2] != 0
      requires m in PieceMoves(board.mtx, pos.x2, pos.y2, Captures)
      modifies this`beatSeries, board
      ensures board.Synced() && beatSeries == old(beatSeries) + 1
      ensures board.mtx == MakeTurn(old(board.mtx), m)
              && board.historyMtx == old(board.historyMtx) + [board.mtx]
              && board.historyBeatSeries == old(board.historyBeatSeries) + [beatSeries]
      ensures InBounds(m.x2, m.y2) && board.mtx[m.x2][m.y2] != 0
      ensures IsCapture(m) && m.x == pos.x2 && m.y == pos.y2
    {
      beatSeries := beatSeries + 1;
      PieceMoveApplicable(board.mtx, pos.x2, pos.y2, Captures, m);
      PieceMovesExact(board.mtx, pos.x2, pos.y2, m);
      MoveShapes(board.mtx, pos.x2, pos.y2, m);
      MakeTurnLands(board.mtx, m);
      var out := board.MovePiece(m, beatSeries);
      assert out.Ok?;
    }

    /** The click loop of the capture continuation: wait for a click on the
        landing cell of one of the moves in logic.turns; clicks elsewhere are
        ignored, and any other response ends the wait. */
    method PickLanding() returns (resp: Response, m: BoardMove)
      modifies this
      ensures beatSeries == old(beatSeries) && |input| <= old(|input|)
      ensures resp != NoInput ==> |input| < old(|input|)
      ensures resp == Quit || resp == Back || resp == Replay || resp == Cell || resp == NoInput
      ensures resp == Cell ==> m in logic.turns
      ensures input == old(input)[|old(input)| - |input|..]
      ensures resp == Cell ==> old(input)[|old(input)| - |input| - 1] == ClickAt(m.x2, m.y2)
      ensures resp != NoInput ==> resp == ClickResponse(old(input)[|old(input)| - |input| - 1], |board.historyMtx|)
      ensures var n := if resp == NoInput then |old(input)| else |old(input)| - |input| - 1;
              forall p :: 0 <= p < n ==> LandingIgnored(old(input)[p], logic.turns, |board.historyMtx|)
    {
      m := MovePos(0, 0, 0, 0, -1, -1);
      ghost var q, turns, size := input, logic.turns, |board.historyMtx|;
      while true
        invariant beatSeries == old(beatSeries) && |input| <= |q|
        invariant input == q[|q| - |input|..]
        invariant turns == logic.turns && size == |board.historyMtx|
        invariant forall p :: 0 <= p < |q| - |input| ==> LandingIgnored(q[p], turns, size)
        decreases |input|
      {
        ghost var before := input;
        var r, cx, cy := GetCell();
        Consumed(q, before, input);
        if r == NoInput {
          IgnoredUpTo(q, before, turns, size, |before|, false);
          return r, m;
        }
        if r != Cell {
          IgnoredUpTo(q, before, turns, size, |before| - |input| - 1, false);
          return r, m;
        }
        var ok, found := FindLanding(logic.turns, cx, cy);
        if ok {
          IgnoredUpTo(q, before, turns, size, |before| - |input| - 1, false);
          return Cell, found;
        }
        IgnoredUpTo(q, before, turns, size, |before| - |input| - 1, true);
      }
    }
  }

  /** Events read off the front of a suffix i0 of the queue q leave a
      suffix i1 of q; the events read from q so far are those read before
      followed by those read now. */
  lemma Consumed(q: seq<Click>, i0: seq<Click>, i1: seq<Click>)
    requires |i0| <= |q| && i0 == q[|q| - |i0|..]
    requires |i1| <= |i0| && i1 == i0[|i0| - |i1|..]
    ensures i1 == q[|q| - |i1|..]
    ensures q[..|q| - |i1|] == q[..|q| - |i0|] + i0[..|i0| - |i1|]
    ensures |i1| < |i0| ==> q[|q| - |i1| - 1] == i0[|i0| - |i1| - 1]
                            && q[..|q| - |i1| - 1] == q[..|q| - |i0|] + i0[..|i0| - |i1| - 1]
  {
  }

  /** Events i0[0..k-1] that meant nothing, read off the suffix i0 of the
      queue q, are the events of q from index |q| - |i0| on that meant
      nothing. */
  lemma SkippedBetween(q: seq<Click>, i0: seq<Click>, i1: seq<Click>, historySize: int)
    requires |i0| <= |q| && i0 == q[|q| - |i0|..] && |i1| < |i0|
    requires forall p :: 0 <= p < |i0| - |i1| - 1 ==> ClickResponse(i0[p], historySize) == Response.Ok
    ensures forall p :: |q| - |i0| <= p < |q| - |i1| - 1 ==> ClickResponse(q[p], historySize) == Response.Ok
  {
    forall p | |q| - |i0| <= p < |q| - |i1| - 1
      ensures ClickResponse(q[p], historySize) == Response.Ok
    {
      assert q[p] == i0[p - (|q| - |i0|)];
    }
  }

  /** The clicks of the queue q that selected move m: the event at src is a
      click on m's source, the event at sel - 1 a click on its destination,
      and every event between them meant nothing, so the source was still
      selected when the destination was clicked. */
  ghost predicate Selected(q: seq<Click>, src: int, sel: int, m: BoardMove, historySize: int) {
    0 <= src < sel - 1 && sel <= |q| && q[src] == ClickAt(m.x, m.y) && q[sel - 1] == ClickAt(m.x2, m.y2)
    && forall p :: src < p < sel - 1 ==> ClickResponse(q[p], historySize) == Response.Ok
  }

  /** The move a human turn made: m is a legal move of the side on grid g,
      selected by clicks of the queue q, and the first history entry pushed
      after h0 is the grid it made. */
  ghost predicate HumanMoved(g: Grid, color: bool, h0: seq<Grid>, h: seq<Grid>, q: seq<Click>, src: int, sel: int, m: BoardMove) {
    m in SideMoves(g, color) && |h| > |h0| && h[|h0|] == MakeTurn(g, m) && Selected(q, src, sel, m, |h0|)
  }

  /** A click the capture continuation passes over: it means nothing, or it
      is a cell of the board on which none of the captures lands. */
  ghost predicate LandingIgnored(e: Click, turns: seq<BoardMove>, historySize: int) {
    var r := ClickResponse(e, historySize);
    r == Response.Ok || (r == Cell && forall t :: t in turns ==> !(t.x2 == e.xc && t.y2 == e.yc))
  }

  /** The ignored clicks at the front of the queue grow by the first k
      events of its suffix i0, which meant nothing, and by the event after
      them when it is a cell no capture lands on. */
  lemma IgnoredUpTo(q: seq<Click>, i0: seq<Click>, turns: seq<BoardMove>, historySize: int, k: int, missed: bool)
    requires |i0| <= |q| && i0 == q[|q| - |i0|..] && 0 <= k <= |i0|
    requires forall p :: 0 <= p < |q| - |i0| ==> LandingIgnored(q[p], turns, historySize)
    requires forall p :: 0 <= p < k ==> ClickResponse(i0[p], historySize) == Response.Ok
    requires missed ==> k < |i0| && i0[k].ClickAt? && ClickResponse(i0[k], historySize) == Cell
                        && !exists t :: t in turns && t.x2 == i0[k].xc && t.y2 == i0[k].yc
    ensures forall p :: 0 <= p < |q| - |i0| + k + (if missed then 1 else 0) ==> LandingIgnored(q[p], turns, historySize)
  {
    forall p | |q| - |i0| <= p < |q| - |i0| + k + (if missed then 1 else 0)
      ensures LandingIgnored(q[p], turns, historySize)
    {
      assert q[p] == i0[p - (|q| - |i0|)];
    }
  }

  /** The grid on the board is the one move m made from the grid recorded
      before it. */
  ghost predicate MadeLast(history: seq<Grid>, mtx: Grid, m: BoardMove) {
    |history| >= 2 && mtx == MakeTurn(history[|history| - 2], m)
  }

  /** Pushing the grid that m made from the top of the history records m as
      the move that made it. */
  lemma MadeLastPush(history: seq<Grid>, m: BoardMove, before: Grid, g: Grid)
    requires |history| >= 1 && history[|history| - 1] == before && g == MakeTurn(before, m)
    ensures MadeLast(history + [g], g, m)
  {
    assert (history + [g])[|history| - 1] == before;
  }

  /** The history of a human turn that has made `beat` captures so far: the
      history before the turn followed by one entry per capture, recorded
      with beat series 1, ..., beat. */
  ghost predicate SeriesChain(hm: seq<Grid>, hb: seq<int>, hMtx: seq<Grid>, hBeat: seq<int>, beat: nat) {
    |hMtx| == |hm| + beat && hMtx[..|hm|] == hm && hBeat == hb + Series(1, beat)
  }

  /** One more capture recorded with the next beat series extends the chain. */
  lemma SeriesChainAdvance(hm: seq<Grid>, hb: seq<int>, hMtx: seq<Grid>, hBeat: seq<int>, beat: nat,
                            hMtx': seq<Grid>, hBeat': seq<int>, beat': nat)
    requires SeriesChain(hm, hb, hMtx, hBeat, beat)
    requires |hMtx'| == |hMtx| + 1 && hMtx'[..|hMtx|] == hMtx
    requires hBeat' == hBeat + [beat'] && beat' == beat + 1
    ensures SeriesChain(hm, hb, hMtx', hBeat', beat')
    ensures beat >= 1 ==> hMtx'[|hm|] == hMtx[|hm|]
  {
    assert hMtx'[..|hm|] == hMtx[..|hm|];
    Extend(hBeat, hb, Series(1, beat), [beat + 1]);
  }

  /** The grid bot_turn holds after the first k moves of its chain, started
      on grid g: each of those moves was accepted. */
  ghost predicate GridChain(g: Grid, ms: seq<BoardMove>, k: int, mtx: Grid) {
    0 <= k <= |ms| && ChainApplicable(g, ms[..k]) && mtx == ApplyChain(g, ms[..k])
  }

  /** The counts bot_turn holds after the first k moves of its chain, started
      with beat series b and beat history hb. */
  ghost predicate CountChain(b: int, hb: seq<int>, ms: seq<BoardMove>, k: int, beat: int, hbs: seq<int>) {
    0 <= k <= |ms| && beat == b + CaptureCount(ms[..k]) && hbs == hb + RunningCounts(b, ms[..k])
  }

  /** Making move k of the chain extends the grid state to k + 1 moves. */
  lemma GridChainAdvance(g: Grid, ms: seq<BoardMove>, k: int, mtx: Grid, mtx2: Grid)
    requires k < |ms| && GridChain(g, ms, k, mtx)
    requires Applicable(mtx, ms[k]) && mtx2 == MakeTurn(mtx, ms[k])
    ensures GridChain(g, ms, k + 1, mtx2)
  {
    var q := ms[..k + 1];
    assert q[..|q| - 1] == ms[..k] && q[|q| - 1] == ms[k];
  }

  /** Counting move k of the chain and recording the running count extends
      the count state to k + 1 moves. */
  lemma CountChainAdvance(b: int, hb: seq<int>, ms: seq<BoardMove>, k: int, beat: int, hbs: seq<int>, beat2: int, hbs2: seq<int>)
    requires k < |ms| && CountChain(b, hb, ms, k, beat, hbs)
    requires beat2 == beat + (if IsCapture(ms[k]) then 1 else 0) && hbs2 == hbs + [beat2]
    ensures CountChain(b, hb, ms, k + 1, beat2, hbs2)
  {
    var q := ms[..k + 1];
    assert q[..|q| - 1] == ms[..k] && q[|q| - 1] == ms[k];
    assert RunningCounts(b, q) == RunningCounts(b, ms[..k]) + [beat2];
    Extend(hbs, hb, RunningCounts(b, ms[..k]), [beat2]);
  }

  /** A move refused at position k of a chain makes the chain inapplicable. */
  lemma ChainBreaks(g: Grid, ms: seq<BoardMove>, k: int)
    requires 0 <= k < |ms| && ChainApplicable(g, ms[..k]) && !Applicable(ApplyChain(g, ms[..k]), ms[k])
    ensures !ChainApplicable(g, ms)
  {
    if ChainApplicable(g, ms) {
      var q := ms[..k + 1];
      assert q[..|q| - 1] == ms[..k] && q[|q| - 1] == ms[k];
      ChainPrefix(g, ms, k + 1);
    }
  }

  lemma {:induction false} ChainPrefix(g: Grid, ms: seq<BoardMove>, n: int)
    requires ChainApplicable(g, ms) && 0 <= n <= |ms|
    ensures ChainApplicable(g, ms[..n])
    decreases |ms|
  {
    if n < |ms| {
      var p := ms[..|ms| - 1];
      ChainPrefix(g, p, n);
      assert p[..n] == ms[..n];
    } else {
      assert ms[..n] == ms;
    }
  }
}
