# Othello on the RX210 trainer board: a verified model

This project models the software core of a one-board Othello game for an
RX210 microcontroller with an 8×8 two-colour LED matrix, a rotary encoder, a
select button and a 16×2 character LCD. It covers three pieces:

- **The Othello engine** in `othello/othello.c`:
  - the rules engine (the cell primitives, `make_flip_dir_flag`,
    `is_placeable`, `flip_stones`, `count_placeable`, `count_stones`,
    `is_game_over`, `init_board`, `line_up_result`);
  - the evaluator (`evaluate_position_weight`, `evaluate_stone_count`,
    `count_stable_stones`, `evaluate_board`);
  - the iterative alpha-beta search `minimax_alphabeta`, and
    `set_AI_cursor_dest`, which sends the AI's cursor to a best move;
  - the cursor (`move_cursor`, the AI's walk to its destination) and the
    rotary-encoder arithmetic;
  - the state switch that `main` runs once per pass of its endless loop.
- **The LED frame-buffer library** `matrixAPI/matrix.c`. It has a drawing
  `canvas`, a `display` buffer, scrolls, flush, and the packing of a column
  into the 16-bit word the shift registers take.
- **The LCD text driver** `othello/lcd_lib4.h`. It has a 32-byte ring
  buffer, the character remapping, the cursor-address command, the FIFO drain
  to the 4-bit bus, and decimal output.

Modules:

- `Board` (board.dfy): the board as a value (`Grid`, eight rows of eight
  `Stone`s; `Black` is the empty square). It holds the pure specifications
  of the rules: rays, `FlipMask`, `Placeable`, `Flipped`, the counts,
  `LegalMoves`, the opening position and the result layout.
- `Rules` (rules.dfy): the C routines over the board as an `array2<Stone>`,
  each proved against its `Board` specification.
- `Evaluator` (evaluator.dfy): the evaluation function and its loops.
- `Minimax` (minimax.dfy): plain depth-bounded minimax as a recursive ghost
  function over a game `t`. A game is a move generator, a move player and a
  static score.
- `AlphaBeta` (alphabeta.dfy): the explicit stack of the iterative search as
  a value. Each step keeps an invariant that relates every open node to the
  minimax value, and a lexicographic rank that decreases.
- `Search` (search.dfy): class `Ai` holds the global arrays `ai_buf`,
  `ai_move_counts`, `ai_moves` and `ai_entry_idx`. `MinimaxAlphaBeta` runs
  the `while (depth > 0)` loop over them and is proved equal to minimax.
  `SetAICursorDest` picks the best move.
- `Cursors` (cursor.dfy): class `Cursor` (the global cursor) with
  `move_cursor` and the AI walk, and the rotary delta.
- `Controller` (controller.dfy): `main`'s switch as a step function `Step`
  on a `Machine` value, with the invariant it keeps and the properties of
  each arm.
- `Matrix` (matrix.dfy): class `LedMatrix` with `canvas` and `display` as
  `array2`s.
- `Lcd` (lcd.dfy): class `Display` with the ring buffer as an `array`, the
  write and read pointers, the RS mode and the log of bus writes. Every
  method is tied to a value-level `Driver` function.

Constants follow the source: `AI_DEPTH` 3, `INF` 100000, the
`POSITION_WEIGHTS` table, the weights `POS_WEIGHT` 10, `MOBILITY_WEIGHT` 2
and `STABLE_WEIGHT` 50, `PULSE_DIFF_PER_CLICK` 4, `BUFFER_SIZE` 32 and the
option bits of `init_Game`. `evaluate_stone_count` is modelled and proved,
but `evaluate_board` does not call it, so the evaluation has no stone-count
term.

The search is stated for any game `t` that satisfies `Searchable(t, ai)`.
That predicate says three things:

- `t`'s score, move list and move player are the program's `evaluate_board`,
  its row-major list of placeable squares, and `flip_stones` without placing
  the stone;
- the scores are strictly between -INF and INF;
- move lists fit `ai_moves`.

`AlphaBeta.OthelloPlays` and `Search` show that `Othello(ai)` is such a game.

## Model

| member | source | states |
|---|---|---|
| Board.SetCell | othello/othello.c:838-847 | the cell written holds the new stone and every other cell is unchanged |
| Board.GridExt | othello/othello.c:832-836 | two boards that agree on every square are equal |
| Board.RaysDisjoint | othello/othello.c:101 | two rays of the DXDY table from one square never meet again, so flips along different directions touch different cells |
| Board.FlipMaskBits | othello/othello.c:981-1022 | bit d of the mask is set exactly when direction d captures |
| Board.MaskUpToBits | othello/othello.c:990-1019 | after the first n directions, bit d is set exactly when d < n and direction d captures |
| Board.ScanMeaning | othello/othello.c:995-1017 | the walk along a direction succeeds exactly when, after a run of opponent stones, there is a stone of the mover's colour at some distance k, all on the board |
| Board.NoCaptureAfterGap | othello/othello.c:1003-1006 | an empty square or the board edge ends the walk: nothing beyond it captures |
| Board.CapturesMeaning | othello/othello.c:981-1022 | bit d of the mask is set exactly when a capture exists along d: one or more opponent stones, then the mover's stone |
| Board.CapturesIff | othello/othello.c:995-1017 | for a coloured mover, a direction captures exactly when a capturing stone exists at some distance along it |
| Board.CapturesColour | othello/othello.c:981-1022 | the empty colour never captures |
| Board.CaptureAtUnique | othello/othello.c:1054-1066 | along one direction the capturing stone is at a unique distance, so flip_stones stops at the first stone of the mover |
| Board.FlipMaskZero | othello/othello.c:1025-1037 | the mask is zero exactly when no direction captures |
| Board.PlaceableMeaning | othello/othello.c:1025-1037 | a square is placeable exactly when it is empty and some direction captures |
| Board.OnFlippedRayMeaning | othello/othello.c:1054-1066 | a cell is flipped along direction d exactly when it lies strictly between the square and the capturing stone |
| Board.FlippedMeaning | othello/othello.c:1040-1071 | after flip_stones a cell holds the mover's colour exactly when it lies between the square and a capturing stone on a flagged ray; all other cells, including the square itself, are unchanged |
| Board.FlippedChanges | othello/othello.c:1040-1071 | flip_stones only turns opponent stones into the mover's colour |
| Board.FlipMaskOffOrigin | othello/othello.c:981-1022 | the mask does not depend on what the square itself holds |
| Board.CaptureAtOffOrigin | othello/othello.c:981-1022 | whether a ray captures does not depend on the square itself |
| Board.StonesFitBoard | othello/othello.c:1094-1111 | red and green stones together number at most 64 |
| Board.CountsAfterPlace | othello/othello.c:838-842 | placing on an empty square adds one stone of the mover and leaves the opponent's count unchanged |
| Board.CountsAfterCapture | othello/othello.c:1040-1071 | when every change turns an opponent stone into the mover's, the mover gains and the opponent loses the number of changed cells |
| Board.GameOverMeaning | othello/othello.c:1114-1117 | is_game_over on the two placeable counts holds exactly when neither colour can place anywhere |
| Board.IsGameOver | othello/othello.c:1114-1117 | is_game_over on two placeable counts; Board.GameOverMeaning proves it holds exactly when neither colour can place anywhere |
| Board.NoMovesMeaning | othello/othello.c:1074-1091 | a placeable count of zero means no square is placeable for that colour, and conversely |
| Board.HasMoveCount | othello/othello.c:1074-1091 | a colour has a move exactly when its placeable count is positive |
| Board.LegalMovesFacts | othello/othello.c:1281-1299 | the root move list has count_placeable entries, every entry is a placeable square, and every placeable square is listed |
| Board.LegalRowFacts | othello/othello.c:1285-1293 | the moves listed from the first w squares of a row number as many as its placeable squares, all lie in that row and are placeable, and every placeable square among them is listed |
| Board.LegalRowsCount | othello/othello.c:1283-1295 | the moves listed from the first h rows number as many as the placeable squares of those rows |
| Board.LegalRowsSound | othello/othello.c:1283-1295 | every listed move is a placeable square of the first h rows |
| Board.LegalRowsComplete | othello/othello.c:1283-1295 | every placeable square of the first h rows is listed |
| Board.LegalMovesBound | othello/othello.c:1281-1299 | at most 64 moves are listed |
| Board.EmptyGrid | othello/othello.c:1645-1663 | the cleared board holds no stone |
| Board.InitialCounts | othello/othello.c:1645-1663 | the opening position holds two red and two green stones |
| Board.OpeningHasMoves | othello/othello.c:1635-1663 | in the opening position both colours can move, so the placeholder count 2 of init_Player is non-zero exactly when a move exists |
| Board.OpeningPlaceable | othello/othello.c:1645-1663 | in the opening position a square is placeable for red exactly at (5,3), (4,2), (2,4), (3,5), and for green exactly at (5,4), (4,5), (2,3), (3,2) |
| Board.OpeningMoveCounts | othello/othello.c:1635-1663 | in the opening position each colour has exactly four legal moves, so the count 2 that init_Player stores is not the number of moves; it agrees with the board only in being non-zero |
| Board.OpeningRedMove | othello/othello.c:1645-1663 | in the opening position red can place on (5, 3) |
| Board.OpeningGreenMove | othello/othello.c:1645-1663 | in the opening position green can place on (5, 4) |
| Board.LineUpCells | othello/othello.c:1120-1164 | line_up_result fills cells 0 .. r-1 of its order with red and the next g cells with green |
| Board.LineUpCounts | othello/othello.c:1120-1164 | the laid-out board holds exactly r red and g green stones |
| Board.CountOfRange | othello/othello.c:1120-1164 | a board whose cells lo .. hi-1, in line_up_result's order, hold a colour and no others do, holds hi - lo stones of it |
| Rules.Place | othello/othello.c:838-842 | the board afterwards is the old board with the stone set on (x, y) |
| Rules.Delete | othello/othello.c:844-847 | the board afterwards is the old board with (x, y) emptied |
| Rules.DeleteAll | othello/othello.c:1648-1655 | every square is empty afterwards |
| Rules.MakeFlipDirFlag | othello/othello.c:981-1022 | the returned byte is the flip mask of the board |
| Rules.MaskStep | othello/othello.c:990-1019 | or-ing in a direction's bit exactly when it captures extends the mask of the first dir directions to dir + 1 |
| Rules.ScanDirection | othello/othello.c:990-1019 | the inner walk of one direction returns whether that direction captures |
| Rules.IsPlaceable | othello/othello.c:1025-1037 | the result is Placeable: the square is empty and the mask is non-zero |
| Rules.FlipStones | othello/othello.c:1040-1071 | the board afterwards is Flipped(old board, flag): exactly the stones between the square and the capturing stone on each flagged ray change |
| Rules.FlipRay | othello/othello.c:1054-1066 | the walk along one flagged ray flips every stone up to the capturing stone |
| Rules.FlipNext | othello/othello.c:1058-1065 | one step of the walk: it stops exactly at the capturing stone and otherwise flips the next cell |
| Rules.PartialFlipStep | othello/othello.c:1058-1065 | flipping the next cell on the ray extends the partially flipped board by one cell |
| Rules.CountPlaceable | othello/othello.c:1074-1091 | the result is the number of placeable squares |
| Rules.CountStones | othello/othello.c:1094-1111 | the result is the number of squares holding the colour |
| Rules.InitBoard | othello/othello.c:1645-1663 | the board afterwards is the opening position |
| Rules.LineUpStep | othello/othello.c:1126-1160 | writing cell k extends the layout of the first k cells to k + 1 cells |
| Rules.LineUpResult | othello/othello.c:1120-1164 | the board afterwards is LineUpGrid(stone1, stone2) |
| Evaluator.WeightBound | othello/othello.c:107-117 | every entry of POSITION_WEIGHTS lies in -120 .. 120 |
| Evaluator.StableCount | othello/othello.c:1220-1232 | the count is between 0 and 4, and it is 4 exactly when the colour holds all four corners |
| Evaluator.StoneRowsAreCount | othello/othello.c:1194-1217 | the row-by-row tally of evaluate_stone_count is the stone count |
| Evaluator.PositionScoreBound | othello/othello.c:1168-1191 | the position term lies in -7680 .. 7680 |
| Evaluator.StoneDiffBound | othello/othello.c:1194-1217 | the stone difference lies in -64 .. 64 |
| Evaluator.EvaluateBounded | othello/othello.c:89-94 | evaluate_board lies strictly between -INF and INF |
| Evaluator.EvaluateAntisymmetric | othello/othello.c:1235-1259 | the evaluation and its position and stone terms for red are the negation of those for green |
| Evaluator.EvaluatePositionWeight | othello/othello.c:1168-1191 | the loop returns the weighted sum of own squares minus the opponent's |
| Evaluator.EvaluateStoneCount | othello/othello.c:1194-1217 | the loop returns the AI's stone count minus the opponent's |
| Evaluator.CountStableStones | othello/othello.c:1220-1232 | the result is the number of corners holding the colour |
| Evaluator.EvaluateBoard | othello/othello.c:1235-1259 | the result is position · 10 + mobility · 2 + corner difference · 50, that is, the weighted combination of the position, mobility and corner terms (there is no stone-count term) |
| Minimax.OthelloBounded | othello/othello.c:1235-1259 | the Othello game's static scores lie strictly between -INF and INF |
| Minimax.ValueBounds | othello/othello.c:1263-1547 | every minimax value lies strictly between -INF and INF |
| Minimax.FoldBounds | othello/othello.c:1404-1453 | a node starts from -INF (maximising) or INF (minimising), and any fold of at least one child is a real score |
| Minimax.FoldMonotone | othello/othello.c:1456-1518 | folding more children never makes a maximising node worse or a minimising node better |
| Minimax.FoldIsMax | othello/othello.c:1539-1543 | at an even depth the fold is the largest child value, and some child attains it |
| Minimax.SearchValueNoMoves | othello/othello.c:1263-1547 | the search value is -INF exactly when the AI has no legal move |
| Minimax.SearchValueIsBestRoot | othello/othello.c:1303-1544 | the search value is the largest root-move score, and some root move attains it |
| AlphaBeta.OthelloPlays | othello/othello.c:1308-1310 | the Othello game scores with evaluate_board, lists moves row-major and simulates a move by flip_stones without placing the stone |
| AlphaBeta.ClampMonotone | othello/othello.c:1456-1518 | clamping to the window preserves order |
| AlphaBeta.StartOK | othello/othello.c:1312-1318 | the stack for a root move's child satisfies the search invariant |
| AlphaBeta.LeafReturns | othello/othello.c:1326-1394 | a node at the depth limit returns its static score, which is its minimax value |
| AlphaBeta.DoneReturns | othello/othello.c:1456-1518 | a node whose moves are exhausted returns a best score that agrees with its minimax value inside its window |
| AlphaBeta.OpenOK | othello/othello.c:1404-1453 | listing a node's moves and starting its best at -INF or INF keeps the invariant |
| AlphaBeta.DescendOK | othello/othello.c:1520-1535 | descending to the next child keeps the invariant; the child inherits its parent's window |
| AlphaBeta.TakeOK | othello/othello.c:1456-1518 | folding a child's score into the parent's best keeps the clamped agreement with the fold of the children seen |
| AlphaBeta.NoCutOK | othello/othello.c:1456-1518 | without a cut-off the parent narrows its window and moves on, keeping the invariant |
| AlphaBeta.CutValue | othello/othello.c:1345-1353 | when the parent cuts, its minimax value lies outside its own window |
| AlphaBeta.NoCutAtOne | othello/othello.c:1313-1316 | a node at depth 1 never cuts, because its window is -INF .. INF |
| AlphaBeta.SkipOK | othello/othello.c:1472-1480 | the grandparent of a cut node may move on without folding that node's value: it could not change the grandparent's value |
| AlphaBeta.ReturnCutOK | othello/othello.c:1472-1480 | a return that cuts drops the parent and keeps the invariant |
| AlphaBeta.ReturnTakeOK | othello/othello.c:1456-1518 | a return without a cut keeps the invariant |
| AlphaBeta.ReturnOK | othello/othello.c:1456-1518 | a return to depth 0 carries exactly the minimax value of the root move's child; any other return keeps the invariant |
| AlphaBeta.PassOK | othello/othello.c:1404-1430 | a node without moves returns its static score, which is its minimax value, and the invariant is kept |
| AlphaBeta.ReturnRanks | othello/othello.c:1456-1518 | a return decreases the lexicographic rank of the stack |
| AlphaBeta.PassRanks | othello/othello.c:1404-1430 | a pass decreases the rank |
| AlphaBeta.DescendRanks | othello/othello.c:1520-1535 | a descent decreases the rank |
| AlphaBeta.LeafStepOK | othello/othello.c:1326-1394 | returning a leaf's static score keeps the invariant, and at depth 0 hands up the child's minimax value |
| AlphaBeta.DoneStepOK | othello/othello.c:1456-1518 | returning an exhausted node's best keeps the invariant, and at depth 0 hands up the child's minimax value |
| AlphaBeta.PassStepOK | othello/othello.c:1404-1430 | returning the static score of a node without moves keeps the invariant |
| AlphaBeta.OpenStepOK | othello/othello.c:1404-1453 | listing a node's moves keeps the invariant, leaves every board and every other move list unchanged, and keeps the rank |
| AlphaBeta.DescendStepOK | othello/othello.c:1520-1535 | descending into the next child keeps the invariant, decreases the rank and leaves the frames above unchanged |
| AlphaBeta.OthelloFits | othello/othello.c:244-247 | an Othello move list fits a row of ai_moves |
| AlphaBeta.Open | othello/othello.c:1404-1453 | listing a node's moves changes only that node's frame: its move list becomes the moves and its best restarts, while its board, move index and window are unchanged |
| AlphaBeta.Descend | othello/othello.c:1520-1535 | a descent goes one level deeper; the child frame holds the child board at move 0 with the parent's alpha and beta, and no other frame changes |
| AlphaBeta.Return | othello/othello.c:1456-1518 | a return pops one level, passing the score up unchanged, or two levels on a cut-off; no board or move list changes |
| AlphaBeta.Pass | othello/othello.c:1404-1430 | a pass pops exactly one level and changes no board or move list |
| Search.CopyBoard | othello/othello.c:1279 | the destination board equals the source afterwards |
| Search.LegalRowsLength | othello/othello.c:1283-1295 | the first h rows list at most 8·h moves |
| Search.ListRow | othello/othello.c:1283-1295 | one row of the move-generation loop appends that row's placeable squares to the row of ai_moves and changes no other row |
| Search.ListSquare | othello/othello.c:1285-1293 | one square is appended exactly when it is placeable |
| Search.Propagate | othello/othello.c:1456-1518 | the return of a score updates the per-depth stack values exactly as the value-level Return step |
| Search.TakeScore | othello/othello.c:1460-1480 | the parent's best becomes the better of best and score; alpha or beta narrows unless the window closes, which is the cut-off |
| Search.PassUp | othello/othello.c:1404-1430 | the return of a pass node updates the per-depth stack values as the value-level Pass step |
| Search.BestOf | othello/othello.c:1568-1577 | the best score is at least every score, and it is -INF or attained by some move |
| Search.Ties | othello/othello.c:1579-1589 | the tie list holds exactly the indices with the best score, in increasing order |
| Search.Pick | othello/othello.c:1591-1598 | the tie-break picks one of the tied moves, the one at the injected index when it is in range |
| Search.BestOfIsFold | othello/othello.c:1568-1577 | the best recorded root score is the maximising fold of the root |
| Search.RootFoldStep | othello/othello.c:1538-1543 | recording one more root score extends the running maximum by that score |
| Search.AiChoice | othello/othello.c:1591-1598 | the chosen index is a move of the root list |
| Search.BestOfAttained | othello/othello.c:1579-1589 | with at least one move, some move ties for best |
| Search.AiChoiceIsBest | othello/othello.c:1550-1603 | the chosen move is legal, and its root score equals the search value, which no move exceeds |
| Search.AiChoiceCovers | othello/othello.c:1591-1598 | every tied move is chosen for some tie-break index |
| Search.Ai.constructor | othello/othello.c:244-247 | the global buffers are allocated, AI_DEPTH+1 boards and AI_DEPTH rows of moves |
| Search.Ai.ListMoves | othello/othello.c:1281-1299 | the row of ai_moves lists the placeable squares row-major, and the other rows are unchanged |
| Search.Ai.ListRootMoves | othello/othello.c:1281-1299 | the root row lists the game's moves, each with score -INF |
| Search.Ai.ListNodeMoves | othello/othello.c:1404-1453 | an inner node's row lists the game's moves, the search invariant still holds, and the root row is unchanged |
| Search.Ai.StaticScore | othello/othello.c:1329 | a leaf is scored by evaluate_board for the AI's colour |
| Search.Ai.Simulate | othello/othello.c:1308-1310 | the next buffer holds the board with the move's flips applied, without the stone |
| Search.Ai.SimulateNode | othello/othello.c:1525-1528 | the child buffer holds the move's child and the search invariant still holds |
| Search.Ai.Step | othello/othello.c:1320-1537 | one pass of the while loop keeps the invariant and decreases the rank of the stack |
| Search.Ai.BranchStep | othello/othello.c:1396-1535 | one pass at an inner node keeps the invariant, decreases the rank and leaves the root row unchanged |
| Search.Ai.ReturnStep | othello/othello.c:1459-1517 | returning a score to the parent (update its best, cut off by beta or alpha and return once more, else narrow the window and move to the next move) keeps the search invariant and decreases the rank of the stack |
| Search.Ai.LeafStep | othello/othello.c:1326-1394 | a node at max_depth returns evaluate_board's score for the AI's colour; the invariant is kept and the rank decreases |
| Search.Ai.PassStep | othello/othello.c:1422-1449 | a node whose move list is empty returns its static score to the parent, which takes the better of it and its best without a cut-off test; the invariant is kept and the rank decreases |
| Search.Ai.OpenStep | othello/othello.c:1451-1453 | a node with moves starts its best at -INF (MAX) or INF (MIN); the invariant is kept, the listed moves are the node's legal moves and the rank of every depth stays equal |
| Search.Ai.DoneStep | othello/othello.c:1456-1518 | a node whose moves are all taken returns its best score to the parent; the invariant is kept and the rank decreases |
| Search.Ai.DescendStep | othello/othello.c:1520-1535 | entering the child of the current move (window inherited, move index 0, the other player) keeps the invariant and decreases the rank |
| Search.Ai.EnterBranch | othello/othello.c:1404-1453 | the first visit of an inner node either passes (the invariant is kept and the rank decreases) or lists its moves and opens the node (the invariant is kept, the move index is 0 below a non-zero count, the rank is unchanged); the root row is unchanged |
| Search.Ai.AdvanceBranch | othello/othello.c:1456-1535 | at a node with its moves listed, either return its best score or enter the child of the next move; the invariant is kept and the rank decreases |
| Search.Ai.ScoreMove | othello/othello.c:1313-1537 | the search of a root move's child returns its minimax value |
| Search.Ai.RootMove | othello/othello.c:1303-1544 | the root move's recorded score is its minimax root score, and the other entries are unchanged |
| Search.Ai.RootRound | othello/othello.c:1303-1544 | after root move i the scores of moves 0 .. i are their minimax root scores and the running best is their maximum |
| Search.Ai.ScoreRootMoves | othello/othello.c:1281-1544 | every root move's score is its plain minimax value, and the result is their maximum |
| Search.Ai.MinimaxAlphaBeta | othello/othello.c:1263-1547 | the board is unchanged; the root list is the legal moves; each root score is the depth-bounded minimax value; the result is the search value, -INF exactly when there is no move |
| Search.Ai.BestScore | othello/othello.c:1568-1577 | the loop computes the best recorded score |
| Search.Ai.CollectTies | othello/othello.c:1579-1589 | ai_entry_idx receives the tied indices in order and best_count is their number |
| Search.Ai.ChooseBest | othello/othello.c:1591-1598 | the index is the tie-break pick among the tied moves, or the stale ai_entry_idx[0] when there is none |
| Search.Ai.SetAICursorDest | othello/othello.c:1550-1603 | with a zero count the destination is the cursor; otherwise it is the root move the tie-break picks among those with the best score; the stale entry is read only when there are no moves |
| Search.Ai.SearchAndChoose | othello/othello.c:1263-1603 | the board is unchanged; with moves, the chosen entry is the tie-break pick among the best root moves; without, it is the stale ai_entry_idx[0] |
| Cursors.Moved | othello/othello.c:859-948 | a step keeps the cursor on the board |
| Cursors.MovedReverse | othello/othello.c:859-948 | LEFT undoes RIGHT and UP undoes DOWN, and the other way round |
| Cursors.LeftCycles | othello/othello.c:866-897 | LEFT and RIGHT advance and retreat the cursor by one in a cycle of all 64 squares |
| Cursors.UpCycles | othello/othello.c:899-946 | UP and DOWN advance and retreat the cursor by one in a cycle of all 64 squares |
| Cursors.AiMoveTickNoWrap | othello/othello.c:2082-2114 | with an on-board destination a tick moves each coordinate one step towards it, never wraps, and shortens the distance by one |
| Cursors.AiWalkArrives | othello/othello.c:2082-2114 | after n ticks the distance is the old distance minus n, and the cursor is on the destination exactly when n is at least the distance |
| Cursors.AiMoveEnds | othello/othello.c:2082-2114 | the walk reaches the destination exactly at tick max(1, |dx|, |dy|) |
| Cursors.AiMoveTick | othello/othello.c:2082-2114 | a tick from an on-board square stays on the board, and a cursor on its destination stays there |
| Cursors.Cursor.constructor | othello/othello.c:238 | the global cursor starts zeroed |
| Cursors.Cursor.Init | othello/othello.c:1666-1672 | init_Cursor puts the cursor on (5, 3) with red to move |
| Cursors.Cursor.MoveCursor | othello/othello.c:859-948 | the cursor moves as Moved and the destination and colour are unchanged |
| Cursors.Cursor.AiMoveStep | othello/othello.c:2082-2114 | one tick of AI_MOVE, with arrival reported exactly on the destination |
| Cursors.ToShort | othello/othello.c:811-814 | the (short int) cast gives a value in -32768 .. 32767 congruent to its argument modulo 65536 |
| Cursors.RotaryDelta | othello/othello.c:811-814 | the delta is a multiple of 4, truncated toward zero from the 16-bit wrapped difference |
| Cursors.TurnsMeaning | othello/othello.c:817-826 | left means a wrapped difference of at least 4, right at most -4, and never both |
| Cursors.ConsumeLeavesRemainder | othello/othello.c:2060-2072 | after prev += delta, less than one click remains, so neither turn is seen again |
| Controller.InitGameModes | othello/othello.c:1623-1632 | init_Game decodes the normal option as two players with sound, and the exhibition option as the AI against itself, moving first |
| Controller.OnReset | othello/othello.c:1870-1879 | the reset check keeps the cursor and destination on the board |
| Controller.ThinkDest | othello/othello.c:2017-2027 | the AI destination is always a square of the board |
| Controller.BootInv | othello/othello.c:1834-1864 | main's state before the first pass satisfies the loop invariant |
| Controller.OpeningInv | othello/othello.c:1898-1928 | a freshly initialised game in either mode, in which both colours can move, satisfies the invariant |
| Controller.RunKeepsInv | othello/othello.c:1867-2316 | every state reached by any run of passes satisfies the invariant |
| Controller.Step | othello/othello.c:1867-2316 | one pass of main's loop (the reset check, then the switch arm) keeps the cursor and destination on the board and the END_SHOW result counts within 64; Controller.StepKeepsInv gives the invariant it keeps |
| Controller.Arm | othello/othello.c:1881-2316 | each arm of the switch keeps the cursor and destination on the board; the arm lemmas below give what each one does |
| Controller.Run | othello/othello.c:1867-2316 | any number of passes keeps the machine well-formed; Controller.RunKeepsInv gives the invariant |
| Controller.StepKeepsInv | othello/othello.c:1867-2316 | one pass keeps the invariant: in the turn states (TURN_START to TURN_SHOW, AI_THINK, AI_MOVE, INPUT_WAIT, INPUT_READ) and in SELECT_WAIT/SELECT_VS each stored placeable count is non-zero exactly when its colour has a move and the skip flag is set exactly when the colour to move has none; in TURN_JUDGE the counts agree with the board; in AI_MOVE and PLACE_CHECK the AI's unskipped square is placeable; in SELECT_WAIT/SELECT_VS exactly one of the two modes is selected, while an exhibition game has neither; in END_SHOW the result counts are the board's stone counts; STATE_UNDEFINED is never reached |
| Controller.ResetRestarts | othello/othello.c:1870-1879 | a reset clears the rotary and goes to INIT_GAME; the exhibition option follows exactly a reset during SELECT_WAIT or SELECT_VS |
| Controller.SelectToggles | othello/othello.c:1953-1994 | SELECT_VS toggles both mode flags on a click, so exactly one stays set, and consumes the click |
| Controller.ThinkDestLegal | othello/othello.c:1550-1603 | the destination is the cursor when the colour has no move and a placeable square otherwise |
| Controller.ThinkDestIsBest | othello/othello.c:1550-1603 | with a count that agrees with the board, the destination is a legal move with the best root score |
| Controller.AiThinkChoosesBest | othello/othello.c:2017-2027 | AI_THINK sets a best legal move as destination, or the cursor when there is none, and goes to AI_MOVE |
| Controller.AiMoveTickStep | othello/othello.c:2082-2122 | one AI_MOVE pass moves one tick and goes to PLACE_CHECK on arrival |
| Controller.AiMoveRun | othello/othello.c:2082-2122 | AI_MOVE reaches PLACE_CHECK exactly after max(1, |dx|, |dy|) passes, on the destination |
| Controller.ReadInput | othello/othello.c:2046-2081 | INPUT_READ moves the cursor one square for a click, in the direction the mode switch selects, and consumes the click |
| Controller.AiNeverRejected | othello/othello.c:2123-2168 | the AI's square is never rejected at PLACE_CHECK |
| Controller.NoMoveKeepsBoard | othello/othello.c:2123-2168 | a skipped turn and a rejected square leave the board unchanged |
| Controller.PlayedIsChildWithStone | othello/othello.c:1308-1310 | the board main plays is the search's simulated board plus the stone of the move |
| Controller.PlayConservesStones | othello/othello.c:2142-2191 | a legal move gives the mover 1 + k stones and takes k from the opponent, with k ≥ 1 flipped |
| Controller.FlipsOne | othello/othello.c:2169-2191 | a legal move flips at least one stone |
| Controller.CommitMove | othello/othello.c:2123-2191 | an accepted move reaches TURN_SWITCH after four passes with the played board |
| Controller.PlaceStone | othello/othello.c:2123-2156 | PLACE_CHECK accepts and PLACE_OK puts down the stone |
| Controller.FlipStones | othello/othello.c:2169-2191 | FLIP_CALC records the capturing directions and FLIP_RUN flips them |
| Controller.JudgeTurn | othello/othello.c:2211-2228 | TURN_JUDGE ends the game exactly when neither colour can place anywhere; otherwise the skip flag is set exactly when the colour to move cannot |
| Controller.ShowTurn | othello/othello.c:2229-2250 | TURN_SHOW hands the turn to the other side only in the man-versus-AI mode |
| Controller.ShowResult | othello/othello.c:2251-2287 | the result layout holds as many red and green stones as the final board; a normal game then waits and the exhibition restarts |
| Controller.EndShowStep | othello/othello.c:2261-2287 | END_SHOW keeps the stone counts of the result board, clears the colour, and waits in a normal game or restarts in the exhibition |
| Controller.DefaultArm | othello/othello.c:2310-2314 | any other state value parks in STATE_UNDEFINED |
| Controller.UndefinedArm | othello/othello.c:2305-2309 | STATE_UNDEFINED changes nothing until a reset |
| Matrix.WriteChangesOneCell | matrixAPI/matrix.c:48-61 | a write changes only canvas[y][x], and only for an on-matrix square and a colour from off to orange |
| Matrix.ReadAfterWrite | matrixAPI/matrix.c:48-72 | a read after a valid write returns the colour written, and other squares read as before |
| Matrix.ReadOffMatrix | matrixAPI/matrix.c:64-72 | reads off the matrix return led_off |
| Matrix.DeleteIsWriteOff | matrixAPI/matrix.c:75-83 | delete is a write of led_off |
| Matrix.ClearReadsOff | matrixAPI/matrix.c:86-89 | every square of a cleared canvas reads led_off |
| Matrix.RightAfterLeft | matrixAPI/matrix.c:104-139 | a right scroll after a left scroll restores the canvas except column 0, which is off |
| Matrix.LeftAfterRight | matrixAPI/matrix.c:104-139 | a left scroll after a right scroll restores the canvas except column 7, which is off |
| Matrix.UpAfterDown | matrixAPI/matrix.c:142-177 | an up scroll after a down scroll restores the canvas except row 0, which is off |
| Matrix.DownAfterUp | matrixAPI/matrix.c:142-177 | a down scroll after an up scroll restores the canvas except row 7, which is off |
| Matrix.ScrollUnknown | matrixAPI/matrix.c:181-191 | any direction other than 'u', 'd', 'l', 'r' changes nothing |
| Matrix.ColorBits | matrixAPI/matrix.c:200-227 | off has neither bit, red only the red bit, green only the green bit, orange both |
| Matrix.ColorTestsAreBitTests | matrixAPI/matrix.c:208-224 | the red and green tests of convert are the and-tests against the red and green bits of the colour |
| Matrix.SetBit | matrixAPI/matrix.c:208-224 | or-ing in bit j sets exactly bit j and keeps the others |
| Matrix.ConvertStep | matrixAPI/matrix.c:208-224 | one row of the packing loop sets the row's red and green bits and keeps the earlier rows |
| Matrix.MoveCells | matrixAPI/matrix.c:92-101 | the destination equals the source afterwards |
| Matrix.LedMatrix.constructor | matrixAPI/matrix.c:20-23 | both buffers start all off |
| Matrix.LedMatrix.Write | matrixAPI/matrix.c:48-61 | the canvas afterwards is the old canvas with the bounds-checked write |
| Matrix.LedMatrix.Read | matrixAPI/matrix.c:64-72 | canvas[y][x] on the matrix, led_off elsewhere |
| Matrix.LedMatrix.Delete | matrixAPI/matrix.c:75-83 | one on-matrix square becomes off; off the matrix nothing changes |
| Matrix.LedMatrix.Clear | matrixAPI/matrix.c:86-89 | every square is off |
| Matrix.LedMatrix.Copy | matrixAPI/matrix.c:92-95 | dst equals the canvas, which is unchanged |
| Matrix.LedMatrix.Paste | matrixAPI/matrix.c:98-101 | the canvas equals src |
| Matrix.LedMatrix.ScrollLeft | matrixAPI/matrix.c:104-120 | column x takes the old column x+1 and column 7 is off |
| Matrix.LedMatrix.ScrollRight | matrixAPI/matrix.c:123-139 | column x takes the old column x-1 and column 0 is off |
| Matrix.LedMatrix.ScrollDown | matrixAPI/matrix.c:142-158 | row y takes the old row y+1 and row 7 is off |
| Matrix.LedMatrix.ScrollUp | matrixAPI/matrix.c:161-177 | row y takes the old row y-1 and row 0 is off |
| Matrix.LedMatrix.Scroll | matrixAPI/matrix.c:181-191 | dispatches on 'u', 'd', 'l', 'r' and otherwise changes nothing |
| Matrix.LedMatrix.Flush | matrixAPI/matrix.c:194-197 | the display equals the canvas, which is unchanged |
| Matrix.LedMatrix.Convert | matrixAPI/matrix.c:200-227 | 0 off the matrix; otherwise bit y+8 is set exactly when display[y][x] has red, bit y exactly when it has green, and no other bit |
| Lcd.Remap | othello/lcd_lib4.h:171-178 | 'g', 'j', 'm', 'p', 'q', 'y' map to 0x00 .. 0x05 in that order; every other byte is unchanged |
| Lcd.Remapped | othello/lcd_lib4.h:184-191 | a string is remapped byte by byte and keeps its length |
| Lcd.RemapInjective | othello/lcd_lib4.h:171-178 | two different bytes are sent alike only when one is a glyph code below 6 and the other the letter drawn with that glyph |
| Lcd.CString | othello/lcd_lib4.h:184-191 | the characters before the terminating NUL |
| Lcd.RingPush | othello/lcd_lib4.h:179-181 | storing at wp and advancing it appends the byte to the queue |
| Lcd.RingOverflow | othello/lcd_lib4.h:179-181 | a write that catches up with rp leaves the queue looking empty |
| Lcd.RingPop | othello/lcd_lib4.h:60-62 | taking buf[rp] and advancing rp removes the head of the queue |
| Lcd.JoinedNibbles | othello/lcd_lib4.h:64-73 | the bus writes, high nibble then low nibble, reassemble into the bytes sent |
| Lcd.NibblesAreNibbles | othello/lcd_lib4.h:64-73 | every bus write carries only four data bits and the RS mode |
| Lcd.AddressFirstLine | othello/lcd_lib4.h:193-204 | lcd_xy(x, 1) sends 0x80 \| (x-1) |
| Lcd.AddressSecondLine | othello/lcd_lib4.h:193-204 | lcd_xy(x, 2) sends 0x80 \| (0x40 + x-1) |
| Lcd.AddressColumnReset | othello/lcd_lib4.h:193-204 | a column outside 1 .. 16 gives the address of column 1 |
| Lcd.Address | othello/lcd_lib4.h:193-204 | the byte is a set-address command (bit 7 set) inside the 16 columns of line 1 (0x80 .. 0x8F) or line 2 (0xC0 .. 0xCF) |
| Lcd.AddressNotRemapped | othello/lcd_lib4.h:171-204 | an address command has bit 7 set and passes lcd_put unchanged |
| Lcd.DigitRoundTrip | othello/lcd_lib4.h:220 | a digit's character reads back as the digit |
| Lcd.DigitsParse | othello/lcd_lib4.h:218-227 | the digits, written least significant first and read back most significant first, give the number |
| Lcd.DecimalRoundTrip | othello/lcd_lib4.h:206-231 | the decimal text parses back to the number, has no leading zero unless it is "0", and has only digits |
| Lcd.ULongDigits | othello/lcd_lib4.h:209-222 | an unsigned long has at most 10 digits, so str[16] is large enough |
| Lcd.DigitsNotRemapped | othello/lcd_lib4.h:171-178 | digits pass lcd_put unchanged |
| Lcd.DecimalString | othello/lcd_lib4.h:218-222 | the loop writes the digits least significant first |
| Lcd.PutAppends | othello/lcd_lib4.h:170-182 | lcd_put appends the remapped byte to the queue unless the buffer is full |
| Lcd.PutOverflows | othello/lcd_lib4.h:170-182 | a put into a full buffer of 31 bytes makes the queue look empty |
| Lcd.PutAllAppends | othello/lcd_lib4.h:184-191 | putting a string appends its remapped bytes in order while there is room |
| Lcd.FlushSends | othello/lcd_lib4.h:57-76 | flush_lcd empties the queue and sends exactly its bytes in FIFO order |
| Lcd.CommandSends | othello/lcd_lib4.h:161-168 | a command flushes pending data, sends the command byte in command mode, and returns to data mode |
| Lcd.DataOutSends | othello/lcd_lib4.h:206-231 | lcd_dataout sends the decimal text of the number, most significant digit first, when it fits the buffer |
| Lcd.Display.constructor | othello/lcd_lib4.h:42-44 | the buffer starts zeroed and empty, in command mode (RS 0), with no bus writes |
| Lcd.Display.Put | othello/lcd_lib4.h:170-182 | the driver state afterwards is PutByte of the old state |
| Lcd.Display.Puts | othello/lcd_lib4.h:184-191 | the driver state afterwards is the old one with the string's bytes before its NUL put |
| Lcd.Display.PutReversed | othello/lcd_lib4.h:224-227 | putting the digit buffer from its end puts the text in order |
| Lcd.Display.Flush | othello/lcd_lib4.h:57-76 | the driver state afterwards is the old one with the queue drained to the bus |
| Lcd.Display.Clear | othello/lcd_lib4.h:161-168 | the clear command is sent |
| Lcd.Display.Xy | othello/lcd_lib4.h:193-204 | the address command for (x, y) is sent |
| Lcd.Display.DataOut | othello/lcd_lib4.h:206-231 | the driver state afterwards is DataOutState of the old one: '0' for zero, else the decimal digits |

## Left out

- Peripheral set-up (`init_PORT`, `init_CLK`, `init_CMT*`, `init_IRQ*`, `init_MTU*`, `init_AD0`, `init_RX210`) is only register writes.
- The interrupt handlers are not modelled, because they are concurrency. Their effects on `main` are step inputs: the reset flag, `select_btn_on`, the rotary counter and the up/down switch.
- `beep`, `wait_10ms`, `wait50us`, `get_AD0_val`, `srand` and `rand` are timing, sound and randomness. `rand() % best_count` becomes the input `rnd`.
- `col_out`, `init_MATRIX`, `matrix_out` and `flush_board` drive the LED shift registers; they are hardware output.
- `init_LCD`, `set_pattern`, `lcd_show_*` and `init_lcd_show` are hardware sequencing and fixed message text. The LCD and LED output that `main`'s arms produce is not part of `Step`.
- matrixAPI/sample_main.c, othello/onkai.h and matrixAPI/matrix.h are not part of this model: a demo loop, tone constants and declarations.
- Search.Ai.MinimaxAlphaBeta: requires 1 ≤ max_depth ≤ AI_DEPTH. The only caller passes AI_DEPTH, and deeper searches would overrun the per-depth arrays.
- Search.Ai.SetAICursorDest: takes the board and the placeable count as given and does not require that they agree. When the count is non-zero and there are no moves, the model reads the stale `ai_moves[0][ai_entry_idx[0]]` as the source does. In `Controller` that square is the input `staleDest`.
- Lcd.PutAppends: covers only a buffer with room. `Lcd.PutOverflows` states the wrap-around that loses the queue.
- Lcd.DataOutSends: covers only output that fits the buffer. `unsigned long` is modelled as 0 .. 2^32 - 1.
- The memset and memmove of `matrix_clear`, `matrix_copy` and `matrix_paste` are written as loops over the 8×8 arrays.
- `Controller.Step` keeps the board, cursor and flags as values; the global cursor is a value field there, while `Cursors.Cursor` models it as an object.
