/** The game controller of othello/othello.c: the state variable of main and
    the switch its endless loop runs once per pass, modelled as a step
    function on the values main and the globals hold. The hardware the loop
    reads (the select button flag, the reset flag set by the timer interrupt,
    the rotary counter, the up/down mode switch, rand) enters as Inputs. */
module Controller {
  import opened Board
  import opened Minimax
  import opened Search
  import opened Cursors

  /** enum State. Unknown(code) is any other value the state variable could
      hold; only the default arm of the switch handles it. */
  datatype State =
    | InitHw | InitGame
    | SelectVs | SelectWait
    | TurnStart | TurnCheck
    | AiThink
    | InputWait | InputRead
    | AiMove
    | PlaceCheck | PlaceOk | PlaceNg
    | FlipCalc | FlipRun
    | TurnSwitch | TurnCount | TurnJudge | TurnShow
    | EndCalc | EndShow | EndWait | EndReset
    | Undefined
    | Unknown(code: int)

  // The option bits init_Game decodes.
  const OptRes: bv8 := 0x01
  const OptSnd: bv8 := 0x02
  const OptManVsMan: bv8 := 0x04
  const OptManVsAi: bv8 := 0x08
  const OptAiVsAi: bv8 := 0x10
  const OptAiTurn: bv8 := 0x20
  const OptSkip: bv8 := 0x40

  /** The option of a normal game: sound on, two players. */
  const OptNormal: bv8 := OptSnd | OptManVsMan
  /** The option of the exhibition: sound on, the AI against itself, the AI first. */
  const OptExhibition: bv8 := OptSnd | OptAiVsAi | OptAiTurn

  /** struct Game: the one-bit flags of the game. */
  datatype Flags = Flags(isReset: bool, isBuzzerActive: bool, isManVsMan: bool, isManVsAi: bool,
                         isAiVsAi: bool, isAiTurn: bool, isSkip: bool)

  /** init_Game: each flag is its option bit. */
  function InitGameFlags(option: bv8): Flags
  {
    Flags(option & OptRes != 0, option & OptSnd != 0, option & OptManVsMan != 0, option & OptManVsAi != 0,
          option & OptAiVsAi != 0, option & OptAiTurn != 0, option & OptSkip != 0)
  }

  /** A normal game starts with two human players and the sound on; the
      exhibition with the AI playing both colours, moving first. Neither sets
      the reset or the skip flag. */
  lemma InitGameModes()
    ensures InitGameFlags(OptNormal) == Flags(false, true, true, false, false, false, false)
    ensures InitGameFlags(OptExhibition) == Flags(false, true, false, false, true, true, false)
  {
  }

  /** struct Player. */
  datatype Player = Player(placeableCount: int, result: int)

  /** init_Player: two placeable squares (the opening rule), no result yet. */
  const InitPlayer: Player := Player(2, 0)

  /** Everything the loop of main reads and writes: its locals state, game,
      red, green, board, rotary, flip_dir_flag and init_option, and the global
      cursor (square, AI destination, colour to move). */
  datatype Machine = Machine(
    state: State, option: bv8, game: Flags, red: Player, green: Player, board: Grid,
    cursor: Pos, dest: Pos, color: Stone, current: U16, prev: U16, flipFlag: bv8)

  /** What one pass of the loop reads from outside: the reset flag the timer
      interrupt sets, select_btn_on, the rotary counter, the up/down switch,
      rand(), and the square the stale entry ai_moves[0][ai_entry_idx[0]]
      holds (read only when a non-zero placeable count meets a board
      without moves). */
  datatype Inputs = Inputs(reset: bool, select: bool, reading: U16, upDown: bool, rnd: nat, staleDest: Pos)

  /** ai_moves only ever holds squares of the board (or its zero initialisation). */
  predicate Admissible(inp: Inputs)
  {
    InBoard(inp.staleDest.x, inp.staleDest.y)
  }

  /** What every pass relies on: the cursor and its destination are squares
      of the board, and the results line_up_result lays out fit on it. */
  predicate Wf(m: Machine)
  {
    InBoard(m.cursor.x, m.cursor.y) && InBoard(m.dest.x, m.dest.y)
    && (m.state == EndShow ==> 0 <= m.red.result && 0 <= m.green.result && m.red.result + m.green.result <= 64)
  }

  /** The reset check at the top of the loop: a reset while the mode is being
      chosen starts the exhibition, any other reset a normal game. */
  function OnReset(m: Machine, inp: Inputs): (r: Machine)
    requires Wf(m)
    ensures Wf(r)
  {
    if m.game.isReset || inp.reset then
      m.(option := if m.state == SelectWait || m.state == SelectVs then OptExhibition else OptNormal,
         state := InitHw, game := m.game.(isReset := false))
    else m
  }

  /** The destination set_AI_cursor_dest gives the cursor: where it is when
      the count is zero, the chosen best move when there are moves, and the
      stale entry otherwise. */
  ghost function ThinkDest(b: Grid, c: Stone, count: int, cursor: Pos, rnd: nat, stale: Pos): (d: Pos)
    requires InBoard(cursor.x, cursor.y) && InBoard(stale.x, stale.y)
    ensures InBoard(d.x, d.y)
  {
    if count == 0 then cursor
    else if |LegalMoves(b, c)| == 0 then stale
    else
      OthelloBounded(c);
      LegalMovesOnBoard(b, c);
      LegalMoves(b, c)[AiChoice(Othello(c), c, AiDepth, b, rnd)]
  }

  /** The placeable count main passes for colour c. */
  function CountOf(m: Machine, c: Stone): int
  {
    if c == Red then m.red.placeableCount else m.green.placeableCount
  }

  /** One pass of the loop of main: the reset check, then one arm of the switch. */
  ghost function Step(m: Machine, inp: Inputs): (r: Machine)
    requires Wf(m) && Admissible(inp)
    ensures Wf(r)
  {
    Arm(OnReset(m, inp), inp)
  }

  /** The arm of the switch for m.state. */
  ghost function Arm(m: Machine, inp: Inputs): (r: Machine)
    requires Wf(m) && Admissible(inp)
    ensures Wf(r)
  {
    match m.state
    case InitHw => m.(current := 0, prev := 0, state := InitGame)
    case InitGame =>
      m.(game := InitGameFlags(m.option), red := InitPlayer, green := InitPlayer, board := InitialGrid(),
         cursor := Pos(5, 3), color := Red,
         state := if m.option == OptNormal then SelectWait else TurnStart)
    case SelectWait => m.(state := if inp.select then TurnStart else SelectVs)
    case SelectVs =>
      if TurnedLeft(inp.reading, m.prev) || TurnedRight(inp.reading, m.prev) then
        m.(current := inp.reading, prev := Consume(inp.reading, m.prev),
           game := m.game.(isManVsMan := !m.game.isManVsMan, isManVsAi := !m.game.isManVsAi),
           state := SelectWait)
      else m.(current := inp.reading, state := SelectWait)
    case TurnStart => m.(state := TurnCheck)
    case TurnCheck => m.(state := if m.game.isAiTurn then AiThink else InputWait)
    case AiThink =>
      m.(dest := ThinkDest(m.board, m.color, CountOf(m, m.color), m.cursor, inp.rnd, inp.staleDest), state := AiMove)
    case InputWait => m.(state := if inp.select then PlaceCheck else InputRead)
    case InputRead =>
      if TurnedLeft(inp.reading, m.prev) then
        m.(current := inp.reading, cursor := Moved(m.cursor, if inp.upDown then Down else Left),
           prev := Consume(inp.reading, m.prev), state := InputWait)
      else if TurnedRight(inp.reading, m.prev) then
        m.(current := inp.reading, cursor := Moved(m.cursor, if inp.upDown then Up else Right),
           prev := Consume(inp.reading, m.prev), state := InputWait)
      else m.(current := inp.reading, state := InputWait)
    case AiMove =>
      var p := AiMoveTick(m.cursor, m.dest);
      AiMoveTickNoWrap(m.cursor, m.dest);
      m.(cursor := p, state := if p == m.dest then PlaceCheck else AiMove)
    case PlaceCheck =>
      m.(state := if m.game.isSkip then TurnSwitch
                  else if Placeable(m.board, m.cursor.x, m.cursor.y, m.color) then PlaceOk
                  else PlaceNg)
    case PlaceOk => m.(board := SetCell(m.board, m.cursor.x, m.cursor.y, m.color), state := FlipCalc)
    case PlaceNg => m.(state := if m.game.isAiTurn then TurnStart else InputWait)
    case FlipCalc => m.(flipFlag := FlipMask(m.board, m.cursor.x, m.cursor.y, m.color), state := FlipRun)
    case FlipRun => m.(board := Flipped(m.board, m.flipFlag, m.cursor.x, m.cursor.y, m.color), state := TurnSwitch)
    case TurnSwitch => m.(color := Opp(m.color), state := TurnCount)
    case TurnCount =>
      m.(red := m.red.(placeableCount := PlaceableCount(m.board, Red)),
         green := m.green.(placeableCount := PlaceableCount(m.board, Green)),
         state := TurnJudge)
    case TurnJudge =>
      if IsGameOver(m.red.placeableCount, m.green.placeableCount) then m.(state := EndCalc)
      else m.(game := m.game.(isSkip := CountOf(m, m.color) == 0), state := TurnShow)
    case TurnShow =>
      m.(game := if m.game.isManVsAi then m.game.(isAiTurn := !m.game.isAiTurn) else m.game, state := TurnStart)
    case EndCalc =>
      StonesFitBoard(m.board);
      m.(red := m.red.(result := StoneCount(m.board, Red)), green := m.green.(result := StoneCount(m.board, Green)),
         state := EndShow)
    case EndShow =>
      m.(color := Black, board := LineUpGrid(m.red.result, m.green.result),
         state := if m.option == OptNormal then EndWait else InitHw)
    case EndWait => m.(state := if inp.select then EndReset else EndWait)
    case EndReset => m.(state := InitHw)
    case Undefined => m
    case Unknown(_) => m.(state := Undefined)
  }

  /** Passes of the loop, one per input. */
  ghost function Run(m: Machine, ins: seq<Inputs>): (r: Machine)
    requires Wf(m) && forall i | 0 <= i < |ins| :: Admissible(ins[i])
    ensures Wf(r)
    decreases |ins|
  {
    if |ins| == 0 then m else Run(Step(m, ins[0]), ins[1..])
  }

  /** A run is its first pass followed by the rest. */
  lemma RunCons(m: Machine, ins: seq<Inputs>)
    requires Wf(m) && |ins| > 0 && forall i | 0 <= i < |ins| :: Admissible(ins[i])
    ensures Run(m, ins) == Run(Step(m, ins[0]), ins[1..])
  {
  }

  /** Inputs without a reset. */
  predicate Quiet(ins: seq<Inputs>)
  {
    forall i | 0 <= i < |ins| :: !ins[i].reset && Admissible(ins[i])
  }

  // ---------------------------------------------------------------------------
  // The invariant of the loop

  /** Each stored count is non-zero exactly when its colour has a move. */
  ghost predicate CountsAgree(m: Machine)
  {
    (m.red.placeableCount != 0 <==> HasMove(m.board, Red))
    && (m.green.placeableCount != 0 <==> HasMove(m.board, Green))
  }

  /** A turn is under way: the cursor colour is a player's, the stored counts
      describe the board, and the skip flag is set exactly when the colour to
      move has no move. */
  ghost predicate InTurn(m: Machine)
  {
    m.color != Black && CountsAgree(m) && (m.game.isSkip <==> CountOf(m, m.color) == 0)
  }

  /** red.result and green.result hold the final board's stone counts. */
  ghost predicate ResultsCounted(m: Machine)
  {
    m.red.result == StoneCount(m.board, Red) && m.green.result == StoneCount(m.board, Green)
  }

  /** What holds in each state of main's switch. */
  ghost predicate StateInv(m: Machine)
    requires Wf(m)
  {
    match m.state
    case InitHw | InitGame | EndWait | EndReset => true
    case SelectWait | SelectVs => InTurn(m) && m.game.isManVsMan != m.game.isManVsAi
    case TurnStart | TurnCheck | PlaceOk | PlaceNg | TurnShow => InTurn(m)
    case AiThink => InTurn(m) && m.game.isAiTurn
    case AiMove =>
      InTurn(m) && m.game.isAiTurn && (!m.game.isSkip ==> Placeable(m.board, m.dest.x, m.dest.y, m.color))
    case InputWait | InputRead => InTurn(m) && !m.game.isAiTurn
    case PlaceCheck =>
      InTurn(m) && (m.game.isAiTurn && !m.game.isSkip ==> Placeable(m.board, m.cursor.x, m.cursor.y, m.color))
    case FlipCalc | FlipRun | TurnSwitch | TurnCount | EndCalc | EndShow => m.color != Black
    case TurnJudge => m.color != Black && CountsAgree(m)
    case Undefined | Unknown(_) => false
  }

  /** The invariant main's loop keeps from its first pass on. It excludes
      STATE_UNDEFINED and the values only the default arm handles. */
  ghost predicate Inv(m: Machine)
  {
    Wf(m) && (m.option == OptNormal || m.option == OptExhibition)
    && (m.game.isReset ==> m.state == InitHw) && StateInv(m)
    && (m.state == EndShow ==> ResultsCounted(m))
  }

  /** main's state before the first pass: INIT_HW and the normal option; the
      locals it has not initialised may hold anything. */
  predicate Boot(m: Machine)
  {
    m.state == InitHw && m.option == OptNormal && Wf(m)
  }

  lemma BootInv(m: Machine)
    requires Boot(m)
    ensures Inv(m)
  {
  }

  /** Every state main reaches from its first pass satisfies the invariant. */
  lemma {:induction false} RunKeepsInv(m: Machine, ins: seq<Inputs>)
    requires Inv(m) && forall i | 0 <= i < |ins| :: Admissible(ins[i])
    ensures Inv(Run(m, ins))
    decreases |ins|
  {
    if |ins| > 0 {
      StepKeepsInv(m, ins[0]);
      RunKeepsInv(Step(m, ins[0]), ins[1..]);
    }
  }

  /** One pass keeps the invariant. In particular the loop never enters
      STATE_UNDEFINED and never takes the default arm. */
  lemma StepKeepsInv(m: Machine, inp: Inputs)
    requires Inv(m) && Admissible(inp)
    ensures Inv(Step(m, inp))
  {
    var m0 := OnReset(m, inp);
    assert Inv(m0);
    match m0.state
    case InitHw | EndWait | EndReset | FlipCalc | FlipRun | TurnSwitch => KeepsPlain(m0, inp);
    case EndCalc => KeepsEndCalc(m0, inp);
    case EndShow => KeepsEndShow(m0, inp);
    case InitGame => KeepsInitGame(m0, inp);
    case SelectWait | SelectVs => KeepsSelect(m0, inp);
    case TurnStart | TurnCheck => KeepsTurnStart(m0, inp);
    case PlaceNg | TurnShow => KeepsTurnEnd(m0, inp);
    case AiThink => KeepsAiThink(m0, inp);
    case InputWait => KeepsInputWait(m0, inp);
    case InputRead => KeepsInputRead(m0, inp);
    case AiMove | PlaceCheck | PlaceOk => KeepsPlace(m0, inp);
    case TurnCount => KeepsTurnCount(m0, inp);
    case TurnJudge => KeepsJudge(m0, inp);
    case Undefined | Unknown(_) => assert false;
  }

  lemma KeepsPlain(m: Machine, inp: Inputs)
    requires Inv(m) && Admissible(inp) && !m.game.isReset
    requires m.state == InitHw || m.state == EndWait || m.state == EndReset || m.state == FlipCalc
          || m.state == FlipRun || m.state == TurnSwitch
    ensures Inv(Arm(m, inp))
  {
  }

  lemma KeepsEndCalc(m: Machine, inp: Inputs)
    requires Inv(m) && Admissible(inp) && m.state == EndCalc
    ensures Inv(Arm(m, inp))
  {
  }

  lemma KeepsEndShow(m: Machine, inp: Inputs)
    requires Inv(m) && Admissible(inp) && m.state == EndShow
    ensures Inv(Arm(m, inp))
  {
  }

  lemma KeepsInitGame(m: Machine, inp: Inputs)
    requires Inv(m) && Admissible(inp) && m.state == InitGame
    ensures Inv(Arm(m, inp))
  {
    OpeningHasMoves();
    InitGameModes();
    OpeningInv(Arm(m, inp));
  }

  /** The state INIT_GAME leaves: red to move, both counts non-zero and both
      colours able to move. */
  lemma OpeningInv(r: Machine)
    requires Wf(r) && (r.option == OptNormal || r.option == OptExhibition)
    requires r.state == (if r.option == OptNormal then SelectWait else TurnStart)
    requires r.game == InitGameFlags(r.option) && r.color == Red
    requires r.red.placeableCount != 0 && r.green.placeableCount != 0
    requires HasMove(r.board, Red) && HasMove(r.board, Green)
    ensures Inv(r)
  {
    InitGameModes();
  }

  lemma KeepsSelect(m: Machine, inp: Inputs)
    requires Inv(m) && Admissible(inp) && (m.state == SelectWait || m.state == SelectVs)
    ensures Inv(Arm(m, inp))
  {
  }

  lemma KeepsTurnStart(m: Machine, inp: Inputs)
    requires Inv(m) && Admissible(inp) && (m.state == TurnStart || m.state == TurnCheck)
    ensures Inv(Arm(m, inp))
  {
  }

  lemma KeepsTurnEnd(m: Machine, inp: Inputs)
    requires Inv(m) && Admissible(inp) && (m.state == PlaceNg || m.state == TurnShow)
    ensures Inv(Arm(m, inp))
  {
  }

  lemma KeepsAiThink(m: Machine, inp: Inputs)
    requires Inv(m) && Admissible(inp) && m.state == AiThink
    ensures Inv(Arm(m, inp))
  {
    var d := ThinkDest(m.board, m.color, CountOf(m, m.color), m.cursor, inp.rnd, inp.staleDest);
    ThinkDestLegal(m.board, m.color, CountOf(m, m.color), m.cursor, inp.rnd, inp.staleDest);
  }

  lemma KeepsInputWait(m: Machine, inp: Inputs)
    requires Inv(m) && Admissible(inp) && m.state == InputWait
    ensures Inv(Arm(m, inp))
  {
  }

  lemma KeepsInputRead(m: Machine, inp: Inputs)
    requires Inv(m) && Admissible(inp) && m.state == InputRead
    ensures Inv(Arm(m, inp))
  {
    InputReadArm(m, inp);
    InputWaitInv(m, Arm(m, inp));
  }

  /** INPUT_READ moves the cursor at most and always returns to INPUT_WAIT. */
  lemma InputReadArm(m: Machine, inp: Inputs)
    requires Wf(m) && Admissible(inp) && m.state == InputRead
    ensures var r := Arm(m, inp);
      r.state == InputWait && r.option == m.option && r.board == m.board && r.color == m.color
      && r.game == m.game && r.red == m.red && r.green == m.green
  {
    var r := Arm(m, inp);
    assert r == m.(current := r.current, cursor := r.cursor, prev := r.prev, state := InputWait);
  }

  lemma InputWaitInv(m: Machine, r: Machine)
    requires Inv(m) && m.state == InputRead && Wf(r) && r.state == InputWait
    requires r.option == m.option && r.board == m.board && r.color == m.color
    requires r.game == m.game && r.red == m.red && r.green == m.green
    ensures Inv(r)
  {
  }

  lemma KeepsPlace(m: Machine, inp: Inputs)
    requires Inv(m) && Admissible(inp) && (m.state == AiMove || m.state == PlaceCheck || m.state == PlaceOk)
    ensures Inv(Arm(m, inp))
  {
  }

  lemma KeepsTurnCount(m: Machine, inp: Inputs)
    requires Inv(m) && Admissible(inp) && m.state == TurnCount
    ensures Inv(Arm(m, inp))
  {
    HasMoveCount(m.board, Red);
    HasMoveCount(m.board, Green);
  }

  lemma KeepsJudge(m: Machine, inp: Inputs)
    requires Inv(m) && Admissible(inp) && m.state == TurnJudge
    ensures Inv(Arm(m, inp))
  {
    JudgeArm(m, inp);
    if !IsGameOver(m.red.placeableCount, m.green.placeableCount) {
      JudgeShowInv(m, m.(game := m.game.(isSkip := CountOf(m, m.color) == 0), state := TurnShow));
    }
  }

  lemma JudgeArm(m: Machine, inp: Inputs)
    requires Wf(m) && Admissible(inp) && m.state == TurnJudge
    ensures Arm(m, inp) == if IsGameOver(m.red.placeableCount, m.green.placeableCount) then m.(state := EndCalc)
      else m.(game := m.game.(isSkip := CountOf(m, m.color) == 0), state := TurnShow)
  {
  }

  lemma JudgeShowInv(m: Machine, r: Machine)
    requires Inv(m) && m.state == TurnJudge
    requires r == m.(game := m.game.(isSkip := CountOf(m, m.color) == 0), state := TurnShow)
    ensures Inv(r)
  {
  }

  // ---------------------------------------------------------------------------
  // AI_THINK

  /** The destination is the cursor square when the colour has no move and a
      legal move of it otherwise. */
  lemma ThinkDestLegal(b: Grid, c: Stone, count: int, cursor: Pos, rnd: nat, stale: Pos)
    requires InBoard(cursor.x, cursor.y) && InBoard(stale.x, stale.y)
    requires count != 0 <==> HasMove(b, c)
    ensures var d := ThinkDest(b, c, count, cursor, rnd, stale);
      (!HasMove(b, c) ==> d == cursor)
      && (HasMove(b, c) ==> Placeable(b, d.x, d.y, c))
  {
    LegalMovesFacts(b, c);
    HasMoveCount(b, c);
  }

  /** With a count that is non-zero exactly when the colour has a move, the
      destination is the cursor square when there is no move, and otherwise a
      legal move whose root score is the search value, the highest of all
      root moves; the stale entry is never read. */
  lemma ThinkDestIsBest(b: Grid, c: Stone, count: int, cursor: Pos, rnd: nat, stale: Pos)
    requires InBoard(cursor.x, cursor.y) && InBoard(stale.x, stale.y)
    requires count != 0 <==> HasMove(b, c)
    ensures var d := ThinkDest(b, c, count, cursor, rnd, stale);
      (!HasMove(b, c) ==> d == cursor)
      && (HasMove(b, c) ==>
            d in LegalMoves(b, c) && Placeable(b, d.x, d.y, c)
            && RootScore(Othello(c), c, AiDepth, b, d) == SearchValue(Othello(c), c, AiDepth, b)
            && forall mv | mv in LegalMoves(b, c) ::
                 RootScore(Othello(c), c, AiDepth, b, mv) <= RootScore(Othello(c), c, AiDepth, b, d))
      && d == ThinkDest(b, c, count, cursor, rnd, cursor)
  {
    ThinkDestLegal(b, c, count, cursor, rnd, stale);
    LegalMovesFacts(b, c);
    if HasMove(b, c) {
      OthelloBounded(c);
      assert Othello(c).moves(b, c) == LegalMoves(b, c);
      AiChoiceIsBest(Othello(c), c, AiDepth, b, rnd);
    }
  }

  /** AI_THINK sets the destination the search chooses and moves on to AI_MOVE. */
  lemma AiThinkChoosesBest(m: Machine, inp: Inputs)
    requires Inv(m) && Admissible(inp) && m.state == AiThink && !inp.reset
    ensures var r := Step(m, inp); var b, c := m.board, m.color;
      r.state == AiMove && r.board == b && r.cursor == m.cursor
      && (!HasMove(b, c) ==> r.dest == m.cursor)
      && (HasMove(b, c) ==>
            r.dest in LegalMoves(b, c)
            && RootScore(Othello(c), c, AiDepth, b, r.dest) == SearchValue(Othello(c), c, AiDepth, b))
  {
    ThinkDestIsBest(m.board, m.color, CountOf(m, m.color), m.cursor, inp.rnd, inp.staleDest);
  }

  /** The case PLACE_NG's comment calls impossible: the AI's square is never rejected. */
  lemma AiNeverRejected(m: Machine, inp: Inputs)
    requires Inv(m) && Admissible(inp) && m.state == PlaceCheck && m.game.isAiTurn && !inp.reset
    ensures Step(m, inp).state != PlaceNg
  {
  }

  /** A skipped turn at PLACE_CHECK and a rejected square at PLACE_NG leave
      the board as it was. */
  lemma NoMoveKeepsBoard(m: Machine, inp: Inputs)
    requires Wf(m) && Admissible(inp) && !inp.reset && !m.game.isReset
    requires m.state == PlaceNg || (m.state == PlaceCheck && m.game.isSkip)
    ensures var r := Step(m, inp);
      r.board == m.board
      && (m.state == PlaceCheck ==> r.state == TurnSwitch)
      && (m.state == PlaceNg ==> r.state == if m.game.isAiTurn then TurnStart else InputWait)
  {
  }

  // ---------------------------------------------------------------------------
  // AI_MOVE

  /** From AI_MOVE, tick k moves the cursor along the walk towards the
      destination, and AI_MOVE hands over to PLACE_CHECK exactly at tick
      AiMoveTicks, on the destination square. */
  lemma {:induction false} AiMoveRun(m: Machine, ins: seq<Inputs>)
    requires Wf(m) && m.state == AiMove && !m.game.isReset && Quiet(ins)
    requires 1 <= |ins| <= AiMoveTicks(m.cursor, m.dest)
    ensures var r := Run(m, ins);
      r.cursor == AiWalk(m.cursor, m.dest, |ins|) && r.dest == m.dest && r.board == m.board
      && (r.state == PlaceCheck <==> |ins| == AiMoveTicks(m.cursor, m.dest))
      && (r.state == PlaceCheck || r.state == AiMove)
      && (r.state == PlaceCheck ==> r.cursor == m.dest)
    decreases |ins|
  {
    var p := m.cursor;
    AiMoveTickNoWrap(p, m.dest);
    var q := AiMoveTick(p, m.dest);
    var m1 := m.(cursor := q, state := if q == m.dest then PlaceCheck else AiMove);
    AiMoveTickStep(m, ins[0]);
    RunCons(m, ins);
    AiMoveEnds(p, m.dest, 1);
    if |ins| > 1 {
      assert Quiet(ins[1..]);
      AiMoveRun(m1, ins[1..]);
    }
  }

  /** One pass of the loop in AI_MOVE without a reset: the cursor takes one
      tick towards the destination, and PLACE_CHECK follows on arrival. */
  lemma AiMoveTickStep(m: Machine, inp: Inputs)
    requires Wf(m) && Admissible(inp) && m.state == AiMove && !m.game.isReset && !inp.reset
    ensures var q := AiMoveTick(m.cursor, m.dest);
      Step(m, inp) == m.(cursor := q, state := if q == m.dest then PlaceCheck else AiMove)
  {
  }

  // ---------------------------------------------------------------------------
  // PLACE_OK, FLIP_CALC, FLIP_RUN

  /** The board PLACE_OK, FLIP_CALC and FLIP_RUN leave for a stone of colour c
      at (x, y): the stone placed, then the directions make_flip_dir_flag
      finds on that board flipped. */
  ghost function Played(b: Grid, x: int, y: int, c: Stone): Grid
    requires InBoard(x, y)
  {
    var s := SetCell(b, x, y, c);
    Flipped(s, FlipMask(s, x, y, c), x, y, c)
  }

  /** The board the search simulates for a move (Child, which only flips) is
      the board main plays without the stone of the move itself. */
  lemma PlayedIsChildWithStone(b: Grid, x: int, y: int, c: Stone)
    requires InBoard(x, y) && c != Black
    ensures Played(b, x, y, c) == SetCell(Child(b, Pos(x, y), c), x, y, c)
  {
    var s := SetCell(b, x, y, c);
    assert AgreeOff(s, b, x, y);
    FlipMaskOffOrigin(s, b, x, y, c);
    var mask := FlipMask(b, x, y, c);
    forall d, e | 0 <= d < 8
      ensures CaptureAt(s, x, y, c, d, e) <==> CaptureAt(b, x, y, c, d, e)
    {
      CaptureAtOffOrigin(s, b, x, y, c, d, e);
    }
    var p := Played(b, x, y, c);
    var q := SetCell(Child(b, Pos(x, y), c), x, y, c);
    forall cy, cx | InBoard(cx, cy)
      ensures p[cy][cx] == q[cy][cx]
    {
      FlippedMeaning(s, mask, x, y, c, cx, cy);
      FlippedMeaning(b, mask, x, y, c, cx, cy);
    }
    GridExt(p, q);
  }

  /** Stone conservation for a move: the mover gains the placed stone and k
      flipped ones, the opponent loses those k, and a legal move flips at
      least one. */
  lemma PlayConservesStones(b: Grid, x: int, y: int, c: Stone)
    requires InBoard(x, y) && (c == Red || c == Green) && Placeable(b, x, y, c)
    ensures var p := Played(b, x, y, c); var k := DiffCount(SetCell(b, x, y, c), p);
      1 <= k && p[y][x] == c
      && StoneCount(p, c) == StoneCount(b, c) + 1 + k
      && StoneCount(p, Opp(c)) + k == StoneCount(b, Opp(c))
  {
    var s := SetCell(b, x, y, c);
    var mask := FlipMask(s, x, y, c);
    var p := Played(b, x, y, c);
    forall cx, cy | InBoard(cx, cy)
      ensures p[cy][cx] == s[cy][cx] || (s[cy][cx] == Opp(c) && p[cy][cx] == c)
    {
      FlippedChanges(s, mask, x, y, c, 8, cx, cy);
    }
    CountsAfterPlace(b, x, y, c);
    CountsAfterCapture(s, p, c);
    FlippedMeaning(s, mask, x, y, c, x, y);
    FlipsOne(b, x, y, c);
  }

  /** A legal move flips at least one stone. */
  lemma FlipsOne(b: Grid, x: int, y: int, c: Stone)
    requires InBoard(x, y) && (c == Red || c == Green) && Placeable(b, x, y, c)
    ensures DiffCount(SetCell(b, x, y, c), Played(b, x, y, c)) >= 1
  {
    var s := SetCell(b, x, y, c);
    var mask := FlipMask(s, x, y, c);
    var p := Played(b, x, y, c);
    PlaceableMeaning(b, x, y, c);
    var d, e :| 0 <= d < 8 && CaptureAt(b, x, y, c, d, e);
    assert AgreeOff(s, b, x, y);
    CaptureAtOffOrigin(s, b, x, y, c, d, e);
    CapturesMeaning(s, x, y, c, d);
    var cx, cy := RayX(x, d, 1), RayY(y, d, 1);
    assert BetweenCapture(s, x, y, c, d, cx, cy);
    FlippedMeaning(s, mask, x, y, c, cx, cy);
    RayLeavesOrigin(x, y, d, 1);
    assert DiffersAt(s, p)(cx, cy);
    ColSumPositive(DiffersAt(s, p), 8, 8, cx, cy);
  }

  /** A move accepted by PLACE_CHECK takes four passes to reach TURN_SWITCH,
      and leaves the played board with the same cursor and colour. */
  lemma CommitMove(m: Machine, ins: seq<Inputs>)
    requires Wf(m) && !m.game.isReset && m.state == PlaceCheck && !m.game.isSkip && Quiet(ins) && |ins| == 4
    requires Placeable(m.board, m.cursor.x, m.cursor.y, m.color)
    ensures var r := Run(m, ins);
      r.state == TurnSwitch && r.cursor == m.cursor && r.color == m.color
      && r.board == Played(m.board, m.cursor.x, m.cursor.y, m.color)
  {
    var m2 := PlaceStone(m, ins);
    var r := FlipStones(m2, ins[2..]);
    assert ins[2..][2..] == [];
  }

  /** PLACE_CHECK accepts the move and PLACE_OK puts the stone down. */
  lemma PlaceStone(m: Machine, ins: seq<Inputs>) returns (r: Machine)
    requires Wf(m) && !m.game.isReset && m.state == PlaceCheck && !m.game.isSkip && Quiet(ins) && |ins| >= 2
    requires Placeable(m.board, m.cursor.x, m.cursor.y, m.color)
    ensures r == m.(board := SetCell(m.board, m.cursor.x, m.cursor.y, m.color), state := FlipCalc)
    ensures Wf(r) && Quiet(ins[2..]) && Run(m, ins) == Run(r, ins[2..])
  {
    var m1 := m.(state := PlaceOk);
    assert Step(m, ins[0]) == m1;
    r := Step(m1, ins[1]);
    assert ins[1..][1..] == ins[2..];
  }

  /** FLIP_CALC records the directions that capture and FLIP_RUN flips them. */
  lemma FlipStones(m: Machine, ins: seq<Inputs>) returns (r: Machine)
    requires Wf(m) && !m.game.isReset && m.state == FlipCalc && Quiet(ins) && |ins| >= 2
    ensures r.state == TurnSwitch && r.cursor == m.cursor && r.color == m.color
    ensures r.board == Flipped(m.board, FlipMask(m.board, m.cursor.x, m.cursor.y, m.color), m.cursor.x, m.cursor.y, m.color)
    ensures Wf(r) && Quiet(ins[2..]) && Run(m, ins) == Run(r, ins[2..])
  {
    var m1 := m.(flipFlag := FlipMask(m.board, m.cursor.x, m.cursor.y, m.color), state := FlipRun);
    assert Step(m, ins[0]) == m1;
    r := Step(m1, ins[1]);
    assert ins[1..][1..] == ins[2..];
  }

  // ---------------------------------------------------------------------------
  // TURN_JUDGE, TURN_SHOW

  /** TURN_JUDGE ends the game exactly when neither colour can place a stone
      anywhere; otherwise it sets the skip flag exactly when the colour to
      move cannot. */
  lemma JudgeTurn(m: Machine, inp: Inputs)
    requires Inv(m) && Admissible(inp) && m.state == TurnJudge && !inp.reset
    ensures var r := Step(m, inp);
      (r.state == EndCalc <==>
         forall x, y | InBoard(x, y) :: !Placeable(m.board, x, y, Red) && !Placeable(m.board, x, y, Green))
      && (r.state != EndCalc ==>
            r.state == TurnShow
            && (r.game.isSkip <==> forall x, y | InBoard(x, y) :: !Placeable(m.board, x, y, m.color)))
  {
  }

  /** TURN_SHOW hands the turn between the human and the AI only in the
      man-versus-AI mode. */
  lemma ShowTurn(m: Machine, inp: Inputs)
    requires Wf(m) && Admissible(inp) && m.state == TurnShow && !inp.reset && !m.game.isReset
    ensures var r := Step(m, inp);
      r.state == TurnStart && (r.game.isAiTurn <==> (m.game.isAiTurn != m.game.isManVsAi))
  {
  }

  // ---------------------------------------------------------------------------
  // SELECT_VS, INPUT_READ

  /** SELECT_VS swaps the two modes on a click either way, so exactly one of
      man-versus-man and man-versus-AI stays selected, and the clicks read
      are consumed. */
  lemma SelectToggles(m: Machine, inp: Inputs)
    requires Inv(m) && Admissible(inp) && m.state == SelectVs && !inp.reset
    ensures var r := Step(m, inp); var turned := TurnedLeft(inp.reading, m.prev) || TurnedRight(inp.reading, m.prev);
      r.state == SelectWait && r.game.isManVsMan != r.game.isManVsAi
      && (turned <==> r.game.isManVsAi != m.game.isManVsAi)
      && !TurnedLeft(r.current, r.prev) && !TurnedRight(r.current, r.prev)
  {
    ConsumeLeavesRemainder(inp.reading, m.prev);
  }

  /** INPUT_READ moves the cursor one square for a click (down or left, up or
      right, by the mode switch), and consumes the clicks it read. */
  lemma ReadInput(m: Machine, inp: Inputs)
    requires Inv(m) && Admissible(inp) && m.state == InputRead && !inp.reset
    ensures var r := Step(m, inp);
      r.state == InputWait && r.board == m.board
      && (TurnedLeft(inp.reading, m.prev) ==> r.cursor == Moved(m.cursor, if inp.upDown then Down else Left))
      && (TurnedRight(inp.reading, m.prev) ==> r.cursor == Moved(m.cursor, if inp.upDown then Up else Right))
      && (!TurnedLeft(inp.reading, m.prev) && !TurnedRight(inp.reading, m.prev) ==> r.cursor == m.cursor)
      && !TurnedLeft(r.current, r.prev) && !TurnedRight(r.current, r.prev)
  {
    TurnsMeaning(inp.reading, m.prev);
    ConsumeLeavesRemainder(inp.reading, m.prev);
  }

  // ---------------------------------------------------------------------------
  // Reset, END_SHOW, the default arm

  /** A reset restarts the game in the same pass: the rotary is cleared and
      INIT_GAME comes next, with the exhibition option when the reset came
      while the mode was being chosen. */
  lemma ResetRestarts(m: Machine, inp: Inputs)
    requires Wf(m) && Admissible(inp) && inp.reset
    ensures var r := Step(m, inp);
      r.state == InitGame && !r.game.isReset && r.current == 0 && r.prev == 0
      && (r.option == OptExhibition <==> m.state == SelectWait || m.state == SelectVs)
      && (r.option == OptExhibition || r.option == OptNormal)
  {
  }

  /** END_SHOW lays the result out with exactly as many red and green stones
      as the final board held, then waits for the player in a normal game and
      restarts the exhibition at once. */
  lemma ShowResult(m: Machine, inp: Inputs)
    requires Inv(m) && Admissible(inp) && m.state == EndShow && !inp.reset
    ensures var r := Step(m, inp);
      StoneCount(r.board, Red) == StoneCount(m.board, Red)
      && StoneCount(r.board, Green) == StoneCount(m.board, Green)
      && r.color == Black
      && r.state == (if m.option == OptNormal then EndWait else InitHw)
  {
    EndShowStep(m, inp);
  }

  lemma EndShowStep(m: Machine, inp: Inputs)
    requires Wf(m) && Admissible(inp) && m.state == EndShow && !m.game.isReset && !inp.reset
    requires ResultsCounted(m)
    ensures var r := Step(m, inp);
      StoneCount(r.board, Red) == StoneCount(m.board, Red)
      && StoneCount(r.board, Green) == StoneCount(m.board, Green)
      && r.color == Black
      && r.state == (if m.option == OptNormal then EndWait else InitHw)
  {
    assert Step(m, inp).board == LineUpGrid(m.red.result, m.green.result);
    LineUpCounts(m.red.result, m.green.result);
  }

  /** The default arm sends any other state value to STATE_UNDEFINED, which
      only a reset leaves. */
  lemma DefaultArm(m: Machine, inp: Inputs)
    requires Wf(m) && Admissible(inp) && !inp.reset && !m.game.isReset && m.state.Unknown?
    ensures Step(m, inp).state == Undefined
  {
  }

  lemma UndefinedArm(m: Machine, inp: Inputs)
    requires Wf(m) && Admissible(inp) && !inp.reset && !m.game.isReset && m.state == Undefined
    ensures Step(m, inp) == m
  {
  }
}
