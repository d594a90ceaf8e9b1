# Checkers engine core in Dafny

This project models the rules core of the RickT52/Checkers engine and proves
properties of it. The engine plays Russian-style checkers on an 8x8 board
with flying kings. The grid holds small integers:

- 0 is an empty cell;
- 1 is a white man and 2 a black man;
- 3 is a white king and 4 a black king.

Parity gives the colour and a value above 2 is a king. A colour flag of
`false` selects the odd (white) pieces and `true` the even (black) ones.
Turn 0 belongs to white.

Modules, one per source file:

- `Moves` (Models/Move.h) holds the move record. Equality compares only the
  endpoints. The captured cell uses -1 as its "no capture" sentinel, as in the
  source. The datatype constructor is the six-argument constructor and
  `Simple` is the four-argument one.
- `Grids` holds the cell encoding, the 8x8 grid type, promotion and
  ownership by parity.
- `Rules` (Game/Logic.h) has two parts.
  - Functions say, in the exact order the source's loops push them, which
    moves the engine generates: per piece, per cell, per row and side-wide.
    They also cover `make_turn`, `calc_score` in plain mode, and the walk
    over the search's index arrays.
  - The class `Logic` owns the fields `turns` and `haveBeats`. Its methods
    run the source's loops and ray scans and are proved to produce exactly
    those sequences.
- `RuleFacts` characterises the generated moves without loops. It covers
  man jumps, flying-king captures of exactly one enemy, king slides,
  mandatory capture side-wide, and legality. Every generated move passes
  `move_piece`'s checks. It also covers what `make_turn` does to each cell
  and to the material, and what the score means.
- `Boards` (Game/Board.h) holds the class `Board`: the live grid and its
  two history stacks, pushed and popped in lockstep.
- `Games` (Game/Game.h) holds the class `Game`, covering:
  - the turn loop;
  - the result code;
  - the bot's chain of moves with the running beat-series count;
  - the human's selection, matched by endpoints;
  - the forced capture continuation;
  - the turn-counter arithmetic on Back.

  The configuration values are parameters of `Play` (`maxTurns`, `whiteIsBot`,
  `blackIsBot`). The bot's search is a parameter too: a function from the grid
  and the colour to a chain of moves. The player's input is a queue of events
  (`Click`) that `GetCell` consumes the way `Hand::get_cell` does.
  The game keeps a ghost log, `turnLog`, of the turn numbers `play` has
  handed to its loop body, so that `Play`'s contract can speak of the last
  turn played.

Exceptions thrown by `move_piece` and `turn_into_queen` are modelled as an
`Outcome` (`Ok` or `Err(error)`):

- A refused bot move ends `Play` with `Aborted(error)`, since nothing in the
  source catches it.
- A human move never throws, because it is one of the generated moves.
  `FirstMove` and `MakeCapture` prove this.

The result code follows the code. `play` returns 0 when the turn limit is
reached. Otherwise it returns 1 when the side to move (black) had no move and
2 when white had none. The board draws code 1 as a white win and code 2 as a
black win (Game/Board.h:357-360). The comments at Game/Game.h:107 and :114
name the winners the other way round.

Two behaviours of the code differ from what a reader might expect from the
names, and the model follows the code:

- **Order of `move_piece`'s steps.** A reader might expect `move_piece` to
  check the move before changing anything. The code empties the captured cell
  first and checks afterwards, so a refused capture has already removed a
  piece (`Boards.Board.MovePiece`).
- **The turn counter on Back.** A reader might expect Back to undo one move
  and let the same side try again. In the code:
  - outside a capture series, the turn passes back to the previous side;
  - if that side is a bot and the history holds more than two grids, its
    turn is undone too, handing the move back to the human
    (`Games.Game.StepBack`, `Games.BackTurn`).

## Model

| member | source | states |
|---|---|---|
| Moves.Simple | Models/Move.h:10-15 | the four-argument constructor keeps the four endpoints and records no capture (captured cell -1, -1) |
| Moves.SameIgnoresCapturedCell | Models/Move.h:24-35 | `==` holds exactly when the two moves become identical once the captured cell is copied over; `!=` is exactly its negation |
| Moves.SameIsEquivalence | Models/Move.h:24-28 | `==` is reflexive, symmetric and transitive |
| Grids.OwnsByValue | Game/Logic.h:238 | the test `mtx[i][j] && mtx[i][j] % 2 != color` selects values 1 and 3 for colour false and values 2 and 4 for colour true |
| Grids.Promote | Game/Logic.h:54-55 | a value changes only when a 1 lands on row 0 or a 2 on row 7, and then it becomes the king of the same colour (+2) |
| Rules.ClearCaptured | Game/Board.h:108-112 | a capture empties exactly its captured cell; a simple move leaves the grid unchanged |
| Rules.KingJumpRayStep | Game/Logic.h:307-324 | one cell of a king's capture scan: a blocking piece ends the list; otherwise the cell contributes the capture recorded there and the scan goes on with the updated captured cell |
| Rules.KingSlideRayStep | Game/Logic.h:363-369 | one cell of a king's slide scan: an occupied cell ends the list; an empty one is a move and the scan goes on |
| Rules.Logic.WalkBestTurns | Game/Logic.h:33-43 | the do-while over `next_move`/`next_best_state` returns the chain read from state 0 |
| Rules.Logic.FindPieceTurns | Game/Logic.h:265-374 | `turns` becomes the piece's captures when it has any, else its simple moves; `have_beats` is true exactly when it has a capture; the search's `next_move`/`next_best_state` are left unchanged |
| Rules.Logic.AddManJumps | Game/Logic.h:279-296 | appends the man's captures in the order the two loops visit the four landing cells |
| Rules.Logic.TryManJump | Game/Logic.h:284-294 | appends the capture landing on (i, j) exactly when that cell is on the board and empty and the midpoint holds a piece of the other parity |
| Rules.Logic.AddKingJumps | Game/Logic.h:301-326 | appends the king's captures, direction by direction, in scan order |
| Rules.Logic.ScanKingJumps | Game/Logic.h:305-324 | the ray loop in one direction appends exactly that direction's captures |
| Rules.Logic.ScanKingJumpCell | Game/Logic.h:309-323 | the loop body: it stops exactly on a piece of the king's own parity or on a second piece; it remembers the first enemy; it records a capture on every empty cell past it; what is left of the ray's captures is then exactly the scan from the next cell |
| Rules.Logic.AddManSteps | Game/Logic.h:344-352 | appends the man's forward diagonal steps onto empty cells on the board |
| Rules.Logic.AddKingSlides | Game/Logic.h:358-371 | appends every empty cell along the four diagonals up to the first occupied one |
| Rules.Logic.ScanKingSlides | Game/Logic.h:363-369 | the ray loop in one direction appends exactly that direction's slides |
| Rules.Logic.FindSideTurns | Game/Logic.h:227-261 | `turns` becomes a permutation of the side's moves: all captures of all its pieces when any exists, else all simple moves; `have_beats` is true exactly when a capture exists; the search's `next_move`/`next_best_state` are left unchanged |
| Rules.Logic.VisitRow | Game/Logic.h:233-256 | after row i the accumulated list and flag are those of rows 0..i |
| Rules.Logic.VisitCell | Game/Logic.h:237-253 | after cell (i, j): the flag says whether a capture was seen so far; the list holds the captures seen if so, else every simple move seen |
| RuleFacts.ManJumpsExact | Game/Logic.h:279-295 | a man's captures are exactly the moves two cells away on any of the four diagonals onto an empty on-board cell over a piece of the other parity, recording that midpoint |
| RuleFacts.ManStepsExact | Game/Logic.h:344-352 | a man's simple moves are exactly the moves to an empty on-board cell one column aside, one row up for an odd value and one row down for an even one |
| RuleFacts.KingJumpRayOut | Game/Logic.h:307 | the scan ends at the edge of the board and no capture lands beyond it |
| RuleFacts.KingJumpRayBlocked | Game/Logic.h:309-315 | a piece of the king's parity, or a second piece after the first enemy, ends the scan, and no capture lands on or beyond it |
| RuleFacts.KingJumpRayPass | Game/Logic.h:309-323 | a cell that does not block the scan yields exactly the captures landing on it or further out |
| RuleFacts.KingJumpRayExact | Game/Logic.h:307-324 | the scan from distance s yields exactly the captures landing s or more cells away: the first occupied cell is an enemy and the landing cell is any empty cell beyond it before the next occupied cell |
| RuleFacts.KingJumpDirExact | Game/Logic.h:305-324 | the captures found in one direction are exactly the flying captures along it |
| RuleFacts.KingJumpsExact | Game/Logic.h:301-326 | a king's captures are exactly the captures of one enemy along some diagonal, with an empty path before it and an empty landing cell after it |
| RuleFacts.KingSlideRayExact | Game/Logic.h:363-369 | the slide scan from distance s yields exactly the empty cells at distance s or more with an empty path to them |
| RuleFacts.KingSlideRayStop | Game/Logic.h:363-366 | the edge or an occupied cell ends the slide scan and no slide goes past it |
| RuleFacts.KingSlideDirExact | Game/Logic.h:363-369 | the slides in one direction are exactly the empty cells along it before the first occupied one |
| RuleFacts.KingSlidesExact | Game/Logic.h:358-371 | a king's simple moves are exactly the empty cells along the four diagonals up to the first occupied cell |
| RuleFacts.PieceMovesExact | Game/Logic.h:272-373 | a piece's captures and simple moves are exactly the man's or the king's, by its value |
| RuleFacts.MoveShapes | Game/Logic.h:294 | captures start at the piece and record a captured cell; simple moves start at the piece and record none (also lines 322, 351 and 368) |
| RuleFacts.CanCaptureExact | Game/Logic.h:330-334 | the capture list is non-empty exactly when some capture is open to the piece |
| RuleFacts.PieceTurnsExact | Game/Logic.h:330-334 | the per-piece query returns the captures when any exists and otherwise exactly the simple moves |
| RuleFacts.SideMovesOfExact | Game/Logic.h:233-253 | the side-wide list of one kind holds exactly the moves of that kind of the side's pieces |
| RuleFacts.SideHasBeatsExact | Game/Logic.h:243-260 | the side's `have_beats` is true exactly when some piece of the side can capture |
| RuleFacts.SideMovesExact | Game/Logic.h:227-260 | mandatory capture: a move is in the side's list exactly when it is a capture of one of its pieces, or a simple move of one of its pieces while none of them can capture |
| RuleFacts.PieceMoveApplicable | Game/Logic.h:284-294 | every move generated for a non-empty cell starts there and passes `move_piece`'s two checks (Board.h:120-128) |
| RuleFacts.PieceTurnApplicable | Game/Logic.h:265-374 | the same for the per-piece query's result |
| RuleFacts.SideMoveApplicable | Game/Logic.h:227-261 | every move in the side's list starts on one of the side's pieces and `move_piece` accepts it (Board.h:120-128) |
| Rules.MakeTurn | Game/Logic.h:50-59 | `make_turn` always empties the source cell; its full cell-by-cell effect is stated by RuleFacts.MakeTurnCells, MakeTurnPromotes and MakeTurnMaterial |
| Rules.CalcScore | Game/Logic.h:61-97 | the score is never negative; its meaning is stated by RuleFacts.CalcScoreMeaning and CalcScoreReciprocal |
| RuleFacts.MakeTurnCells | Game/Logic.h:50-59 | `make_turn`: the source is empty and the destination holds the promoted source value; the captured cell is empty; every other cell is unchanged |
| RuleFacts.MakeTurnLands | Game/Logic.h:54-56 | after a move that passes the checks the destination holds a piece |
| RuleFacts.MakeTurnPromotes | Game/Logic.h:54-56 | the moved piece keeps its colour; it is crowned exactly when a white man reaches row 0 or a black man reaches row 7 |
| RuleFacts.MakeTurnMaterial | Game/Logic.h:50-59 | a move of one's own piece keeps one's piece count, and a capture of an enemy removes exactly one enemy piece |
| RuleFacts.SideMoveJumpsEnemy | Game/Logic.h:290 | a generated capture jumps an opponent's piece that stands on neither endpoint (also line 312) |
| RuleFacts.SideMoveMaterial | Game/Logic.h:227-261 | applying a generated move keeps the mover's piece count and lowers the opponent's by one exactly for a capture |
| RuleFacts.CalcScoreMeaning | Game/Logic.h:61-97 | from side c's view, the score is INF exactly when the other side has no piece; otherwise it is 0 exactly when c has none, and else c's material over the other side's, men counting 1 and kings 4; it always lies in [0, INF] |
| RuleFacts.CalcScoreReciprocal | Game/Logic.h:81-96 | with both sides on the board, swapping `first_bot_color` inverts the score |
| RuleFacts.BestChainShape | Game/Logic.h:37-41 | the walk starts with the move of state cur; it is no longer than the states from cur on; every later move is a real move taken from a later state |
| Boards.StartGrid | Game/Board.h:267-282 | the start layout cell by cell: 2 on the dark cells of rows 0-2, 1 on those of rows 5-7, 0 elsewhere |
| Boards.PopCount | Game/Board.h:210-215 | rollback pops the last beat series (at least one) entries but never the first entry |
| Boards.PopCountUndoesChain | Game/Board.h:208-216 | after a series of k captures recorded as 1..k, one rollback pops exactly those k entries |
| Boards.SeriesShape | Game/Game.h:257-302 | entry t of a beat series started from b is b + t |
| Boards.Board.constructor | Game/Board.h:429-433 | a fresh board has an empty grid and empty histories of equal length |
| Boards.Board.AddHistory | Game/Board.h:260-264 | pushes the current grid and the beat series onto the two stacks, changing nothing else |
| Boards.Board.MakeStartMtx | Game/Board.h:267-284 | the grid becomes the start layout and exactly one history entry (that layout, beat series 0) is appended |
| Boards.Board.Redraw | Game/Board.h:95-103 | both histories are cleared and reseeded: one entry, the start layout with beat series 0, and the grid equals it |
| Boards.Board.GetBoard | Game/Board.h:159-162 | returns a grid equal to the board's cell by cell |
| Boards.Board.DropPiece | Game/Board.h:139-143 | empties one cell and leaves the histories alone |
| Boards.Board.MovePieceAt | Game/Board.h:117-136 | refuses an occupied destination first, then an empty source, changing nothing; otherwise the grid becomes `make_turn`'s result and one (grid, beat series) entry is pushed |
| Boards.Board.MovePiece | Game/Board.h:106-114 | succeeds exactly when the move is applicable after the captured cell is emptied; on success the grid is `make_turn`'s result with one history entry; a refusal is FinalNotEmpty or BeginEmpty, never CannotPromote, and leaves the captured cell emptied (not atomic) |
| Boards.Board.TurnIntoQueen | Game/Board.h:146-156 | fails on an empty cell or a king, changing nothing; crowns a man (+2), keeping its colour and every other cell |
| Boards.Board.Rollback | Game/Board.h:208-219 | pops PopCount entries from both stacks in lockstep, keeps at least one, and restores the grid on top |
| Boards.StartLayout | Game/Board.h:267-282 | in the start layout every piece is a man on a dark cell, black ones only in rows 0-2 and white ones only in rows 5-7; rows 3-4 are empty |
| Boards.StartHasNoCapture | Game/Board.h:267-282 | no piece of either side can capture in the start layout |
| Boards.StartWhiteCanMove | Game/Board.h:279-280 | white, who moves first, has a legal opening move in the start layout |
| Games.CRem | Game/Game.h:48 | `turn_num % 2` with C++ truncation: strictly between -b and b, and Dafny's remainder for non-negative numbers |
| Games.TurnColorAlternates | Game/Game.h:45-48 | consecutive turn numbers belong to opposite sides, and turn 0 moves the odd (white) pieces |
| Games.ResultCode | Game/Game.h:106-115 | 0 exactly when the turn limit was reached, else 1 exactly when black was to move, else 2 |
| Games.BackTurn | Game/Game.h:73-88 | the turn number after Back: one less mid-series (the same side moves next); otherwise two less, or three less when the opponent is a bot and the history holds more than two grids |
| Games.ClickResponse | Game/Hand.h:19-77 | what one event means: closing the window is Quit; the back button (-1, -1) is Back exactly when the history holds more than one grid; the replay button (-1, 8) is Replay; a click on the board is Cell; anything else is skipped (Ok) |
| Games.OpponentFlag | Game/Game.h:76 | for a non-negative turn number the flag consulted on Back is the opponent's bot setting |
| Games.FindSelection | Game/Game.h:189-203 | a click re-selects when it is the source of a legal move; it picks a legal move equal by endpoints to the one from the selected cell; it misses exactly when neither holds |
| Games.FindLanding | Game/Game.h:286-294 | finds a capture landing on the clicked cell exactly when one exists, and returns one of them |
| Games.RunningCountsShape | Game/Game.h:140-149 | the beat series recorded for a bot's chain grows by one exactly at each capture |
| Games.CaptureChainCounts | Game/Game.h:140-149 | a bot's chain of k captures records 1, ..., k, which one rollback undoes |
| Games.Game.constructor | Game/Game.h:14-19 | a new game holds a fresh board with empty history and the given input |
| Games.Game.GetCell | Game/Hand.h:19-77 | consumes a prefix of the event queue: every event but the last is skipped by `ClickResponse`, and the response is `ClickResponse` of the last one consumed; a Cell returns that click's coordinates; NoInput only when every event was skipped and the queue is empty |
| Games.Game.Play | Game/Game.h:22-124 | the loop ends; on a finished game the code is the result code of the last turn number. Code 0 only at the limit: the last turn handed out (recorded in `turnLog`) was `maxTurns - 1`, or the limit is 0. Code 1 only when black, on the last logged turn, had no legal move. Code 2 only when white, on the last logged turn, had none, or with a negative limit before any turn was handed out |
| Games.Game.TakeTurn | Game/Game.h:45-91 | one pass of the loop, logged as turn t: it reports Stuck exactly when the side to move has no legal move, and then leaves the grid alone. A side whose bot flag is set plays `bot(grid, colour)` without reading input: the game stops, with Aborted, exactly when that chain is refused, and otherwise goes on with the chain's grid and turn t + 1. A human side never aborts. Otherwise the game stops or goes on with the board in step with its history |
| Games.Game.FindSide | Game/Game.h:47-51 | the turn list becomes the side's legal moves, and the side is stuck exactly when it has none |
| Games.Game.BotBranch | Game/Game.h:90-91 | plays the bot's chain for the grid without reading input; it stops, with Aborted, exactly when the chain is refused, and otherwise the grid is the chain's result |
| Games.Game.HumanTurn | Game/Game.h:57-89 | Quit stops with Quitted, Replay with Replayed and an exhausted input with OutOfInput, each exactly for that response; Back and a finished move go on. On a finished move (Ok) the player made `first`, a legal move of the side selected by its source and destination clicks, and the first history entry is the grid it made. After Back the next turn number is `BackTurn` + 1 and the beat series is 0. Back in the middle of a capture series (beat > 0) undoes exactly that series: history and turn number are those at the turn's start. Back before any move shrinks the history to a proper prefix of it. Otherwise the next turn follows |
| Games.Game.StepBack | Game/Game.h:73-88 | mid-series, one rollback and the same side moves; otherwise the previous side moves, and when the opponent is a bot and the history holds more than two grids a second rollback hands the move back to the human |
| Games.Game.BotTurn | Game/Game.h:128-149 | applies the chain in order: it succeeds exactly when every move is applicable in turn, the grid is the chain's result, one history entry per move, each with the running capture count |
| Games.Game.PlayBotMove | Game/Game.h:147-148 | counts a capture, then makes the move with the running count as its beat series |
| Games.Game.PlayerTurn | Game/Game.h:158-309 | a move is made only if it is a legal move of the side, selected by clicks as SelectMove states (`Selected`), and the first history entry it pushes is `make_turn` of the grid before the turn and that move. A simple move is one history entry with beat series 0. A capture records beat series 1, 2, ...; `last` is the capture that produced the current grid from the previous history entry, and an Ok ends only when no capture is open from its landing cell. Without a move the history is untouched, and Back comes only with more than one grid in it |
| Games.Game.MakeMove | Game/Game.h:248-308 | makes the selected legal move: the first entry pushed is `make_turn` of the old grid and that move; after a capture it continues capturing as above; `last` is the capture that produced the current grid |
| Games.Game.FirstMove | Game/Game.h:249 | the selected legal move is accepted by `move_piece`, with beat series 1 for a capture and 0 otherwise |
| Games.Game.ContinueCaptures | Game/Game.h:257-306 | keeps the history as the turn's start plus beat series 1..k, and leaves the first capture's entry as it was; `last` is the capture that produced the current grid from the previous history entry, and Ok is returned only when its landing cell has no capture left |
| Games.Game.SelectMove | Game/Game.h:177-242 | consumes a prefix of the input; returns Cell only with a move from the current legal list whose destination is the last click consumed and whose source is the click at index `src`, with only meaningless events in between, so the source was still selected (`Selected`); any other response ends the selection |
| Games.Game.NextCapture | Game/Game.h:261-304 | with no capture from the landing cell the turn ends unchanged; otherwise the capture whose landing cell was the last click consumed, one of that piece's captures starting on the landing cell, is made with the next beat series and produced the new grid |
| Games.Game.PickLanding | Game/Game.h:277-297 | consumes a prefix of the input; every click before the last means nothing or is a board cell on which no capture lands; Cell comes only with a move of the list landing on the last click; any other response is what the last click means |
| Games.Game.MakeCapture | Game/Game.h:301-302 | the clicked capture, one of the piece's captures, gets the next beat series and `move_piece` accepts it: the grid becomes `make_turn`'s result with one history entry |

## Left out

- Rendering and windowing are not modelled: SDL textures, `start_draw`,
  `rerender`, highlights, the active cell, `show_final`,
  `reset_window_size`, `quit` and the destructor. Redraw calls inside the
  state methods are no-ops. The first game's `start_draw` is modelled by
  `Redraw` on a fresh board.
- `Hand`'s pixel-to-cell arithmetic (Game/Hand.h:42-43) and window resize
  events are not modelled: input events arrive as cells, or as row -1 for
  the two buttons.
- `Hand::wait` after the final position is not modelled.
- Games.Game.GetCell: an input queue that runs dry returns NoInput, where the
  program would wait for the next event forever.
- Games.Game.Play: a Replay stops the model with `Replayed` instead of
  starting a new game recursively (Game/Game.h:101-102, 117-122). Quit
  yields `Quitted` where the source returns 0.
- Games.Game.Play: termination is proved over the input queue and the turn
  limit, so the model assumes input is finite where the program would block.
- The bot's search (`find_first_best_turn`, `find_best_turns_rec`, the
  alpha cut-offs) is not modelled. The search indexes outside the grid and
  has no depth bound. `Play` takes the bot's answer as a function of the
  grid and the colour, and `Logic.nextMove`/`nextBestState` are fields the
  search would fill. For the same reason the `Max_depth` assignment
  (Game/Game.h:54) is not modelled.
- Rules.Logic.FindSideTurns: the random engine seeded from the clock is not
  modelled, so the shuffle yields some permutation of the accumulated list,
  not a particular one.
- Rules.CalcScore: the `NumberAndPotential` mode (fractional position bonus
  and king weight 5) is floating-point tuning and is left out. Plain mode
  is computed over exact reals.
- Configuration lookups become the parameters `maxTurns`, `whiteIsBot` and
  `blackIsBot`. The Config class is not part of this model.
- Logging, timing, the thread with `SDL_Delay` and the delays between bot
  moves are not modelled.
- The public `find_turns` wrappers (Game/Logic.h:211-222) are not separate
  members. Callers pass `board.GetBoard()` to the grid-taking methods.
- `POS_T` is an 8-bit integer in the source. Coordinates stay within -2..13
  (the man-capture loop reaches x+6 at Game/Logic.h:279 and the step loop
  y+3 at Game/Logic.h:345), well inside an 8-bit integer, and cell values
  stay within 0..4, so no wrap-around can occur. The model uses
  unbounded integers.
- Loop bodies of `play`, `player_turn` and `find_turns` are split into
  helper methods (TakeTurn, FindSide, BotBranch, HumanTurn, StepBack,
  SelectMove, MakeMove, FirstMove, ContinueCaptures, NextCapture,
  MakeCapture, PickLanding, VisitRow, VisitCell, ScanKingJumpCell). Each performs the same steps in the same order as the
  code it replaces.
- Games.Game.PlayerTurn: for a capture series the contract states the
  history's beat series, the grid the first capture pushed, that the last
  capture made produced the current grid, and that an Ok ends only when
  that capture's landing cell has no capture left. It does not state the
  grids between the first and the last capture, nor that each capture after
  the first is one of the piece's captures from the previous landing cell;
  NextCapture states each of those one step at a time.
- Games.Game.MakeMove: states the same for a capture series as PlayerTurn,
  and leaves the same captures to NextCapture.
- Games.Game.ContinueCaptures: states the same for the series it continues
  as PlayerTurn, and leaves the same captures to NextCapture.
