/** The AI of othello/othello.c as it runs: the global search buffers, the
    explicit-stack alpha-beta search over them, and the choice of the AI's
    destination square. The search is proved to return the plain minimax value
    of Minimax for the game Othello(ai), through the invariant of AlphaBeta. */
module Search {
  import opened Board
  import opened Rules
  import opened Evaluator
  import opened Minimax
  import opened AlphaBeta
  import opened Cursors

  /** struct Move: a candidate square and the score the search gave it. */
  datatype Move = Move(x: int, y: int, score: int)

  /** memcpy of one board into another. */
  method CopyBoard(dst: array2<Stone>, src: array2<Stone>)
    requires IsBoard(dst) && IsBoard(src) && dst != src
    modifies dst
    ensures Cells(dst) == Cells(src)
  {
    forall y, x | 0 <= y < Height && 0 <= x < Width {
      dst[y, x] := src[y, x];
    }
    GridExt(Cells(dst), Cells(src));
  }

  /** Rows before h list at most 8 moves each. */
  lemma {:induction false} LegalRowsLength(g: Grid, c: Stone, h: int)
    requires 0 <= h <= 8
    ensures |LegalRows(g, c, h)| <= 8 * h
  {
    if h > 0 {
      LegalRowsLength(g, c, h - 1);
      LegalRowFacts(g, c, h - 1, 8);
    }
  }

  /** The move table: ai_move_counts and ai_moves. */
  predicate IsTable(counts: array<int>, moves: array2<Move>)
  {
    counts.Length == AiDepth && moves.Length0 == AiDepth && moves.Length1 == MaxMoves
  }

  /** Row k of the move table starts with ms; each listed move's score is -INF
      at the root and otherwise the score the slot held before (scores). */
  ghost predicate Lists(counts: array<int>, moves: array2<Move>, k: int, ms: seq<Pos>, root: bool, scores: seq<int>)
    requires IsTable(counts, moves) && 0 <= k < AiDepth && |scores| == MaxMoves
    reads counts, moves
  {
    counts[k] == |ms| <= MaxMoves &&
    forall j | 0 <= j < |ms| :: moves[k, j] == Move(ms[j].x, ms[j].y, if root then -Inf else scores[j])
  }

  /** One row of the move-generation loop of minimax_alphabeta: the squares of
      row y where c may play on board a are appended after the moves ms
      already listed in row k. */
  method ListRow(a: array2<Stone>, counts: array<int>, moves: array2<Move>, k: int, c: Stone, y: int, root: bool,
                 ghost ms: seq<Pos>, ghost scores: seq<int>)
    requires IsBoard(a) && IsTable(counts, moves) && 0 <= k < AiDepth && 0 <= y < Height && |scores| == MaxMoves
    requires |ms| <= 8 * y && Lists(counts, moves, k, ms, root, scores)
    requires forall j | |ms| <= j < MaxMoves :: moves[k, j].score == scores[j]
    modifies counts, moves
    ensures Lists(counts, moves, k, ms + LegalRow(Cells(a), c, y, 8), root, scores)
    ensures forall j | counts[k] <= j < MaxMoves :: moves[k, j].score == scores[j]
    ensures forall i | 0 <= i < AiDepth && i != k :: counts[i] == old(counts[i])
    ensures forall i, j | 0 <= i < AiDepth && i != k && 0 <= j < MaxMoves :: moves[i, j] == old(moves[i, j])
  {
    ghost var g := Cells(a);
    var x := 0;
    while x < Width
      invariant 0 <= x <= Width
      invariant |LegalRow(g, c, y, x)| <= x
      invariant Lists(counts, moves, k, ms + LegalRow(g, c, y, x), root, scores)
      invariant forall j | counts[k] <= j < MaxMoves :: moves[k, j].score == scores[j]
      invariant forall i | 0 <= i < AiDepth && i != k :: counts[i] == old(counts[i])
      invariant forall i, j | 0 <= i < AiDepth && i != k && 0 <= j < MaxMoves :: moves[i, j] == old(moves[i, j])
    {
      ListSquare(a, counts, moves, k, c, x, y, root, ms + LegalRow(g, c, y, x), scores);
      x := x + 1;
    }
  }

  /** The body of the move-generation loop: square (x, y) is listed when c may play there. */
  method ListSquare(a: array2<Stone>, counts: array<int>, moves: array2<Move>, k: int, c: Stone, x: int, y: int, root: bool,
                    ghost ms: seq<Pos>, ghost scores: seq<int>)
    requires IsBoard(a) && IsTable(counts, moves) && 0 <= k < AiDepth && InBoard(x, y) && |scores| == MaxMoves
    requires |ms| < MaxMoves && Lists(counts, moves, k, ms, root, scores)
    requires forall j | |ms| <= j < MaxMoves :: moves[k, j].score == scores[j]
    modifies counts, moves
    ensures Lists(counts, moves, k, ms + if Placeable(Cells(a), x, y, c) then [Pos(x, y)] else [], root, scores)
    ensures forall j | counts[k] <= j < MaxMoves :: moves[k, j].score == scores[j]
    ensures forall i | 0 <= i < AiDepth && i != k :: counts[i] == old(counts[i])
    ensures forall i, j | 0 <= i < AiDepth && i != k && 0 <= j < MaxMoves :: moves[i, j] == old(moves[i, j])
  {
    var ok := IsPlaceable(a, x, y, c);
    if ok {
      var n := counts[k];
      moves[k, n] := Move(x, y, if root then -Inf else moves[k, n].score);
      counts[k] := n + 1;
    }
  }

  /** The local stacks of minimax_alphabeta, indexed by depth 0 .. AI_DEPTH:
      stack_alpha, stack_beta, stack_best_score, stack_move_idx and
      stack_is_max. They are local to the function, so they are values here. */
  datatype Locals = Locals(alpha: seq<int>, beta: seq<int>, best: seq<int>, idx: seq<int>, isMax: seq<bool>)
  {
    predicate Valid()
    {
      |alpha| == AiDepth + 1 && |beta| == AiDepth + 1 && |best| == AiDepth + 1 &&
      |idx| == AiDepth + 1 && |isMax| == AiDepth + 1
    }
  }

  /** The local stacks hold the numbers of the path st, whose top is depth;
      stack_is_max alternates along the live part of the path, starting with
      MIN at depth 1. */
  predicate Mirrors(st: Stack, depth: int, L: Locals)
  {
    L.Valid() && Shaped(st) && st.depth == depth &&
    (forall k | 0 <= k <= AiDepth ::
      st.frames[k].alpha == L.alpha[k] && st.frames[k].beta == L.beta[k] &&
      st.frames[k].best == L.best[k] && st.frames[k].idx == L.idx[k]) &&
    (forall k | 1 <= k <= depth && k <= AiDepth :: L.isMax[k] == (k % 2 == 0))
  }

  /** The root loop's running best after move i: the larger of the best so
      far and the root score of move i. */
  lemma RootFoldStep(t: Game, ai: Stone, D: int, g0: Grid, ms: seq<Pos>, i: int)
    requires 1 <= D && 0 <= i < |ms|
    ensures Fold(t, ai, D, g0, 0, ms, i + 1) == Max(Fold(t, ai, D, g0, 0, ms, i), RootScore(t, ai, D, g0, ms[i]))
  {
  }

  /** Entering a child copies the parent's alpha and beta one level up,
      starts its move index at 0 and flips stack_is_max. */
  lemma DescendMirrors(st: Stack, L: Locals, child: Grid)
    requires Mirrors(st, st.depth, L) && 1 <= st.depth < AiDepth
    ensures var d := st.depth + 1;
      Mirrors(Descend(st, child), d,
        L.(alpha := L.alpha[d := L.alpha[d - 1]], beta := L.beta[d := L.beta[d - 1]],
           idx := L.idx[d := 0], isMax := L.isMax[d := !L.isMax[d - 1]]))
  {
  }

  /** The block that returns score from the top node at depth to its parent:
      the parent takes the score, then either cuts (dropping itself, and its
      own parent moves on) or narrows its alpha (MAX) or beta (MIN) and moves
      on. Returns the new stacks, the new depth and the new value of score. */
  method Propagate(L: Locals, depth: int, score: int, ghost st: Stack) returns (L': Locals, newDepth: int, newScore: int)
    requires Mirrors(st, depth, L) && 1 <= depth <= AiDepth
    ensures Mirrors(Return(st, score).0, newDepth, L') && newScore == Return(st, score).1
  {
    var alpha, beta, best, idx := L.alpha, L.beta, L.best, L.idx;
    newDepth, newScore := depth - 1, score;
    if newDepth > 0 {
      var p := newDepth;
      var cut;
      best, alpha, beta, cut := TakeScore(L, p, newScore, st);
      if cut {
        newScore := best[p];
        newDepth := newDepth - 1;
        if newDepth > 0 {
          idx := idx[newDepth := idx[newDepth] + 1];
        }
      } else {
        idx := idx[p := idx[p] + 1];
      }
    }
    L' := L.(alpha := alpha, beta := beta, best := best, idx := idx);
  }

  /** The parent p takes score: stack_best[p] is raised (MAX) or lowered
      (MIN) to it, then either the window closes (a cut) or the parent's own
      bound narrows to its best. */
  method TakeScore(L: Locals, p: int, score: int, ghost st: Stack)
    returns (best: seq<int>, alpha: seq<int>, beta: seq<int>, cut: bool)
    requires Mirrors(st, p + 1, L) && 1 <= p < AiDepth
    ensures var f := st.frames[p]; var nb := Better(p, f.best, score);
      best == L.best[p := nb] && cut == Cuts(p, f, nb)
      && alpha == (if !cut && p % 2 == 0 && nb > f.alpha then L.alpha[p := nb] else L.alpha)
      && beta == (if !cut && p % 2 != 0 && nb < f.beta then L.beta[p := nb] else L.beta)
  {
    alpha, beta, best := L.alpha, L.beta, L.best;
    cut := false;
    if L.isMax[p] {
      if score > best[p] {
        best := best[p := score];
      }
      if best[p] >= beta[p] {
        cut := true;
      } else if best[p] > alpha[p] {
        alpha := alpha[p := best[p]];
      }
    } else {
      if score < best[p] {
        best := best[p := score];
      }
      if best[p] <= alpha[p] {
        cut := true;
      } else if best[p] < beta[p] {
        beta := beta[p := best[p]];
      }
    }
  }

  /** The block that returns a passing node's static score to its parent:
      the parent takes it without a cut test or a window update. */
  method PassUp(L: Locals, depth: int, score: int, ghost st: Stack) returns (L': Locals, newDepth: int)
    requires Mirrors(st, depth, L) && 1 <= depth <= AiDepth
    ensures Mirrors(Pass(st, score), newDepth, L')
  {
    var best, idx := L.best, L.idx;
    newDepth := depth - 1;
    if newDepth > 0 {
      var p := newDepth;
      if L.isMax[p] {
        if score > best[p] {
          best := best[p := score];
        }
      } else {
        if score < best[p] {
          best := best[p := score];
        }
      }
      idx := idx[p := idx[p] + 1];
    }
    L' := L.(best := best, idx := idx);
  }

  /** What the search needs of a game: its scores are real values, its move
      lists fit ai_moves, and its moves are squares of the board. */
  ghost predicate Sound(t: Game)
  {
    Bounded(t) && FitsBuffer(t) && OnBoard(t)
  }

  // ---------------------------------------------------------------------------
  // The choice of set_AI_cursor_dest

  /** The first loop of set_AI_cursor_dest: the best of the first n scores,
      starting from -INF. */
  function BestOf(s: seq<int>, n: int): (r: int)
    requires 0 <= n <= |s|
    ensures -Inf <= r && forall j | 0 <= j < n :: s[j] <= r
    ensures r == -Inf || exists j | 0 <= j < n :: s[j] == r
  {
    if n == 0 then -Inf else Max(BestOf(s, n - 1), s[n - 1])
  }

  /** The second loop of set_AI_cursor_dest: the indices among the first n
      whose score is v, in increasing order. */
  function Ties(s: seq<int>, v: int, n: int): (r: seq<int>)
    requires 0 <= n <= |s|
    ensures |r| <= n
    ensures forall i | 0 <= i < |r| :: 0 <= r[i] < n && s[r[i]] == v
    ensures forall i, k | 0 <= i < k < |r| :: r[i] < r[k]
    ensures forall j | 0 <= j < n && s[j] == v :: j in r
  {
    if n == 0 then [] else Ties(s, v, n - 1) + (if s[n - 1] == v then [n - 1] else [])
  }

  /** The tie-break: with several tied moves the one at rnd modulo their
      number (rand() % best_count), otherwise the only one. */
  function Pick(ties: seq<int>, rnd: nat): (r: int)
    requires |ties| > 0
    ensures r in ties
    ensures rnd < |ties| ==> r == ties[rnd]
  {
    if |ties| > 1 then ties[rnd % |ties|] else ties[0]
  }

  /** The scores minimax_alphabeta gives the root moves of board g. */
  ghost function RootScores(t: Game, ai: Stone, D: int, g: Grid): (r: seq<int>)
    ensures |r| == |t.moves(g, ai)|
  {
    seq(|t.moves(g, ai)|, j requires 0 <= j < |t.moves(g, ai)| => RootScore(t, ai, D, g, t.moves(g, ai)[j]))
  }

  /** The index of the root move set_AI_cursor_dest sends the AI's cursor
      to, for tie-break rnd. */
  ghost function AiChoice(t: Game, ai: Stone, D: int, g: Grid, rnd: nat): (j: int)
    requires Bounded(t) && 1 <= D && |t.moves(g, ai)| > 0
    ensures 0 <= j < |t.moves(g, ai)|
  {
    var s := RootScores(t, ai, D, g);
    BestOfAttained(t, ai, D, g);
    Pick(Ties(s, BestOf(s, |s|), |s|), rnd)
  }

  /** With the scores of the root moves, the first loop computes the search
      value, and it is attained by some move. */
  lemma {:induction false} BestOfIsFold(t: Game, ai: Stone, D: int, g: Grid, n: int)
    requires 1 <= D && 0 <= n <= |t.moves(g, ai)|
    ensures BestOf(RootScores(t, ai, D, g), n) == Fold(t, ai, D, g, 0, t.moves(g, ai), n)
  {
    if n > 0 {
      BestOfIsFold(t, ai, D, g, n - 1);
      assert RootScores(t, ai, D, g)[n - 1] == ChildValue(t, ai, D, g, 0, t.moves(g, ai), n - 1);
    }
  }

  /** With a root move, the best root score is attained, so there is a tie. */
  lemma BestOfAttained(t: Game, ai: Stone, D: int, g: Grid)
    requires Bounded(t) && 1 <= D && |t.moves(g, ai)| > 0
    ensures var s := RootScores(t, ai, D, g); |Ties(s, BestOf(s, |s|), |s|)| > 0
  {
    var s := RootScores(t, ai, D, g);
    ValueBounds(t, ai, D, t.play(g, t.moves(g, ai)[0], ai), 1);
    assert s[0] > -Inf;
    var j :| 0 <= j < |s| && s[j] == BestOf(s, |s|);
    assert j in Ties(s, BestOf(s, |s|), |s|);
  }

  /** The AI's choice is one of its legal moves with the best root score,
      which is the search value. */
  lemma AiChoiceIsBest(t: Game, ai: Stone, D: int, g: Grid, rnd: nat)
    requires Bounded(t) && 1 <= D && |t.moves(g, ai)| > 0
    ensures var ms := t.moves(g, ai); var j := AiChoice(t, ai, D, g, rnd);
      RootScore(t, ai, D, g, ms[j]) == SearchValue(t, ai, D, g) &&
      forall m | m in ms :: RootScore(t, ai, D, g, m) <= RootScore(t, ai, D, g, ms[j])
  {
    var ms := t.moves(g, ai);
    var s := RootScores(t, ai, D, g);
    BestOfIsFold(t, ai, D, g, |ms|);
    SearchValueIsBestRoot(t, ai, D, g);
    BestOfAttained(t, ai, D, g);
    var ties := Ties(s, BestOf(s, |s|), |s|);
    var j := AiChoice(t, ai, D, g, rnd);
    assert j == Pick(ties, rnd);
    assert s[j] == BestOf(s, |s|);
  }

  /** Every move tied for the best root score is chosen for some tie-break. */
  lemma AiChoiceCovers(t: Game, ai: Stone, D: int, g: Grid, k: int)
    requires Bounded(t) && 1 <= D && 0 <= k < |t.moves(g, ai)|
    requires RootScore(t, ai, D, g, t.moves(g, ai)[k]) == SearchValue(t, ai, D, g)
    ensures exists rnd: nat :: AiChoice(t, ai, D, g, rnd) == k
  {
    var s := RootScores(t, ai, D, g);
    BestOfIsFold(t, ai, D, g, |s|);
    BestOfAttained(t, ai, D, g);
    var ties := Ties(s, BestOf(s, |s|), |s|);
    assert s[k] == BestOf(s, |s|);
    var i :| 0 <= i < |ties| && ties[i] == k;
    assert AiChoice(t, ai, D, g, i) == Pick(ties, i);
  }

  /** The games the search is proved for: those that the program's move
      generation, simulation and evaluation play, and that are sound. */
  ghost predicate Searchable(t: Game, ai: Stone)
  {
    Plays(t, ai) && Sound(t)
  }

  /** The search's state lives in four global arrays (ai_buf, ai_move_counts,
      ai_moves, ai_entry_idx); this object holds them. */
  class Ai {
    /** ai_buf: one board per depth 0 .. AI_DEPTH. */
    const buf: seq<array2<Stone>>
    /** ai_move_counts: the number of listed moves per depth 0 .. AI_DEPTH - 1. */
    const moveCounts: array<int>
    /** ai_moves: the listed moves per depth, in row-major order. */
    const moves: array2<Move>
    /** ai_entry_idx: indices of the root moves tied for the best score. */
    const entryIdx: array<int>

    ghost predicate Valid()
    {
      |buf| == AiDepth + 1 &&
      (forall k | 0 <= k < |buf| :: IsBoard(buf[k])) &&
      (forall i, j | 0 <= i < |buf| && 0 <= j < |buf| && i != j :: buf[i] != buf[j]) &&
      moveCounts.Length == AiDepth &&
      moves.Length0 == AiDepth && moves.Length1 == MaxMoves &&
      entryIdx.Length == MaxMoves
    }

    /** The buffers as static storage starts them: all zero, which for a
        board is stone_red in every cell. */
    constructor ()
      ensures Valid() && EntriesOK()
      ensures fresh(moveCounts) && fresh(moves) && fresh(entryIdx)
      ensures forall k | 0 <= k < |buf| :: fresh(buf[k])
    {
      var b0 := new Stone[Height, Width]((y, x) => Red);
      var b1 := new Stone[Height, Width]((y, x) => Red);
      var b2 := new Stone[Height, Width]((y, x) => Red);
      var b3 := new Stone[Height, Width]((y, x) => Red);
      buf := [b0, b1, b2, b3];
      moveCounts := new int[AiDepth](_ => 0);
      moves := new Move[AiDepth, MaxMoves]((k, j) => Move(0, 0, 0));
      entryIdx := new int[MaxMoves](_ => 0);
    }

    /** ai_entry_idx only ever holds indices of ai_moves' rows. */
    ghost predicate EntriesOK()
      requires Valid()
      reads entryIdx
    {
      forall j | 0 <= j < MaxMoves :: 0 <= entryIdx[j] < MaxMoves
    }

    /** Row k of ai_moves lists exactly ms, by square. */
    ghost predicate Listed(k: int, ms: seq<Pos>)
      requires Valid() && 0 <= k < AiDepth
      reads this, moveCounts, moves
    {
      moveCounts[k] == |ms| && |ms| <= MaxMoves &&
      forall j | 0 <= j < |ms| :: moves[k, j].x == ms[j].x && moves[k, j].y == ms[j].y
    }

    /** The scores row k of ai_moves holds. */
    ghost function Scores(k: int): (r: seq<int>)
      requires Valid() && 0 <= k < AiDepth
      reads this, moves
      ensures |r| == MaxMoves
    {
      seq(MaxMoves, j requires 0 <= j < MaxMoves reads moves => moves[k, j].score)
    }

    /** The move-generation loop of minimax_alphabeta: list the squares where c
        may play on ai_buf[k], row by row. At the root (and only there) each
        move's score is reset to -INF; deeper rows keep whatever score was there. */
    method ListMoves(k: int, c: Stone, root: bool)
      requires Valid() && 0 <= k < AiDepth
      modifies moveCounts, moves
      ensures Listed(k, LegalMoves(Cells(buf[k]), c))
      ensures forall j | 0 <= j < moveCounts[k] :: moves[k, j].score == if root then -Inf else old(moves[k, j].score)
      ensures forall i | 0 <= i < AiDepth && i != k :: moveCounts[i] == old(moveCounts[i])
      ensures forall i, j | 0 <= i < AiDepth && i != k && 0 <= j < MaxMoves :: moves[i, j] == old(moves[i, j])
    {
      ghost var g := Cells(buf[k]);
      ghost var scores := Scores(k);
      moveCounts[k] := 0;
      var y := 0;
      while y < Height
        invariant 0 <= y <= Height
        invariant |LegalRows(g, c, y)| <= 8 * y
        invariant Lists(moveCounts, moves, k, LegalRows(g, c, y), root, scores)
        invariant forall j | moveCounts[k] <= j < MaxMoves :: moves[k, j].score == scores[j]
        invariant forall i | 0 <= i < AiDepth && i != k :: moveCounts[i] == old(moveCounts[i])
        invariant forall i, j | 0 <= i < AiDepth && i != k && 0 <= j < MaxMoves :: moves[i, j] == old(moves[i, j])
      {
        ListRow(buf[k], moveCounts, moves, k, c, y, root, LegalRows(g, c, y), scores);
        LegalRowsLength(g, c, y + 1);
        y := y + 1;
      }
      LegalMovesBound(g, c);
    }
  
    /** evaluate_board on ai_buf[k], seen as the game's static score. */
    method StaticScore(k: int, ai: Stone, ghost t: Game) returns (score: int)
      requires Valid() && 0 <= k <= AiDepth && Plays(t, ai)
      ensures score == t.score(Cells(buf[k]))
    {
      score := EvaluateBoard(buf[k], ai);
    }

    /** The move generation at the root, seen as the game's move list. */
    method ListRootMoves(ai: Stone, ghost t: Game)
      requires Valid() && Plays(t, ai)
      modifies moveCounts, moves
      ensures Listed(0, t.moves(Cells(buf[0]), ai))
      ensures forall j | 0 <= j < moveCounts[0] :: moves[0, j].score == -Inf
    {
      ListMoves(0, ai, true);
    }

    /** The move generation of the top node at depth k of the path st, seen
        as the game's move list; the loop invariant still holds, since the
        top node has taken no child yet. */
    method ListNodeMoves(k: int, c: Stone, ai: Stone, ghost t: Game, D: int, ghost b1: Grid, L: Locals, ghost st: Stack)
      requires Plays(t, ai) && Inv(t, ai, D, b1, st, k, 0, L) && 1 <= k < D && st.frames[k].idx == 0
      modifies moveCounts, moves
      ensures Listed(k, t.moves(Cells(buf[k]), c)) && Inv(t, ai, D, b1, st, k, 0, L)
      ensures moveCounts[0] == old(moveCounts[0]) && forall j | 0 <= j < MaxMoves :: moves[0, j] == old(moves[0, j])
    {
      ListMoves(k, c, false);
    }

    /** The simulated move of minimax_alphabeta: copy ai_buf[d] into
        ai_buf[d + 1] and flip there what (x, y) captures for c. The stone
        itself is not placed. */
    method Simulate(d: int, x: int, y: int, c: Stone, ai: Stone, ghost t: Game)
      requires Valid() && 0 <= d < AiDepth && InBoard(x, y) && Plays(t, ai)
      modifies buf[d + 1]
      ensures Cells(buf[d + 1]) == t.play(Cells(buf[d]), Pos(x, y), c)
    {
      ghost var g := Cells(buf[d]);
      CopyBoard(buf[d + 1], buf[d]);
      var flag := MakeFlipDirFlag(buf[d + 1], x, y, c);
      FlipStones(flag, buf[d + 1], x, y, c);
      assert Cells(buf[d + 1]) == Child(g, Pos(x, y), c);
    }

    /** Simulate below the top node at depth d of the path st: ai_buf[d + 1]
        is not a live board, so the loop invariant still holds. */
    method SimulateNode(d: int, x: int, y: int, c: Stone, ai: Stone, ghost t: Game, D: int, ghost b1: Grid, L: Locals, ghost st: Stack)
      requires Plays(t, ai) && Inv(t, ai, D, b1, st, d, 0, L) && 1 <= d < D && InBoard(x, y)
      modifies buf[d + 1]
      ensures Cells(buf[d + 1]) == t.play(Cells(buf[d]), Pos(x, y), c) && Inv(t, ai, D, b1, st, d, 0, L)
    {
      Simulate(d, x, y, c, ai, t);
    }

    /** The boards of ai_buf at the live depths are the boards of the path st. */
    ghost predicate BoardsMirror(st: Stack)
      requires Valid() && Shaped(st)
      reads buf
    {
      forall k | 1 <= k <= st.depth && k <= AiDepth :: st.frames[k].board == Cells(buf[k])
    }

    /** Every node of the path st that has taken a child has its moves listed
        in its row of ai_moves. */
    ghost predicate MovesMirror(st: Stack, D: int)
      requires Valid() && Shaped(st) && D <= AiDepth
      reads this, moveCounts, moves
    {
      forall k | 1 <= k < D && k <= st.depth && (k < st.depth || 0 < st.frames[k].idx) :: Listed(k, st.frames[k].moves)
    }

    /** The invariant of the while loop of minimax_alphabeta, searching the
        child b1 of a root move to depth D in game t: the local stacks and the
        global buffers mirror a path that satisfies StackOK, and once depth
        reaches 0, score is b1's value. */
    ghost predicate Inv(t: Game, ai: Stone, D: int, b1: Grid, st: Stack, depth: int, score: int, L: Locals)
      reads this, buf, moveCounts, moves
    {
      Valid() && 1 <= D <= AiDepth && 0 <= depth <= D &&
      Mirrors(st, depth, L) && BoardsMirror(st) &&
      (depth > 0 ==> StackOK(t, ai, D, b1, st) && MovesMirror(st, D)) &&
      (depth == 0 ==> score == Value(t, ai, D, b1, 1))
    }

    /** Returning to a shallower depth keeps the listed rows of the nodes left on the path. */
    lemma MovesKept(D: int, st: Stack, st': Stack)
      requires Valid() && Shaped(st) && Shaped(st') && D <= AiDepth
      requires MovesMirror(st, D) && st'.depth < st.depth
      requires forall k | 0 <= k <= AiDepth :: st'.frames[k].moves == st.frames[k].moves
      ensures MovesMirror(st', D)
    {
    }

    /** Returning score from the top node: the path st' that Return leaves
        is mirrored again once Propagate has updated the local stacks. */
    method ReturnStep(ghost t: Game, ai: Stone, D: int, ghost b1: Grid, L: Locals, depth: int, score: int, ghost st: Stack)
      returns (L': Locals, newDepth: int, newScore: int, ghost st': Stack)
      requires Inv(t, ai, D, b1, st, depth, 0, L) && 1 <= depth
      requires Kept(st, Return(st, score).0) && Returned(t, ai, D, b1, Return(st, score).0, Return(st, score).1)
      ensures Inv(t, ai, D, b1, st', newDepth, newScore, L') && Lex(st', st)
    {
      st' := Return(st, score).0;
      MovesKept(D, st, st');
      L', newDepth, newScore := Propagate(L, depth, score, st);
    }

    /** A leaf (depth == max_depth) returns its static score. */
    method LeafStep(ghost t: Game, ai: Stone, D: int, ghost b1: Grid, L: Locals, depth: int, score: int, ghost st: Stack)
      returns (L': Locals, newDepth: int, newScore: int, ghost st': Stack)
      requires Sound(t) && Inv(t, ai, D, b1, st, depth, 0, L) && 1 <= depth && D <= depth
      requires score == t.score(Cells(buf[depth]))
      ensures Inv(t, ai, D, b1, st', newDepth, newScore, L') && Lex(st', st)
    {
      LeafStepOK(t, ai, D, b1, st, score);
      L', newDepth, newScore, st' := ReturnStep(t, ai, D, b1, L, depth, score, st);
    }

    /** A node without a move passes: its static score goes to its parent. */
    method PassStep(ghost t: Game, ai: Stone, D: int, ghost b1: Grid, L: Locals, depth: int, score: int, ghost st: Stack)
      returns (L': Locals, newDepth: int, ghost st': Stack)
      requires Sound(t) && Inv(t, ai, D, b1, st, depth, 0, L) && 1 <= depth < D && L.idx[depth] == 0
      requires Listed(depth, t.moves(Cells(buf[depth]), ColorAt(ai, depth))) && moveCounts[depth] == 0
      requires score == t.score(Cells(buf[depth]))
      ensures Inv(t, ai, D, b1, st', newDepth, score, L') && Lex(st', st)
    {
      PassStepOK(t, ai, D, b1, st, score);
      st' := Pass(st, score);
      MovesKept(D, st, st');
      L', newDepth := PassUp(L, depth, score, st);
    }

    /** A node with moves starts its best score at -INF (MAX) or INF (MIN). */
    method OpenStep(ghost t: Game, ai: Stone, D: int, ghost b1: Grid, L: Locals, depth: int, ghost st: Stack)
      returns (L': Locals, ghost st': Stack)
      requires Sound(t) && Inv(t, ai, D, b1, st, depth, 0, L) && 1 <= depth < D && L.idx[depth] == 0
      requires Listed(depth, t.moves(Cells(buf[depth]), ColorAt(ai, depth))) && 0 < moveCounts[depth]
      ensures Inv(t, ai, D, b1, st', depth, 0, L') && Listed(depth, st'.frames[depth].moves) && L'.idx[depth] == 0
      ensures NodeOK(t, ai, D, depth, Lo(st', depth), Hi(st', depth), st'.frames[depth])
      ensures forall k | 1 <= k <= AiDepth :: Rank(st', k) == Rank(st, k)
    {
      ghost var ms := t.moves(Cells(buf[depth]), ColorAt(ai, depth));
      L' := L.(best := L.best[depth := if L.isMax[depth] then -Inf else Inf]);
      OpenStepOK(t, ai, D, b1, st, ms);
      st' := Open(st, ms);
    }

    /** All moves of the top node taken: return its best score. */
    method DoneStep(ghost t: Game, ai: Stone, D: int, ghost b1: Grid, L: Locals, depth: int, ghost st: Stack)
      returns (L': Locals, newDepth: int, score: int, ghost st': Stack)
      requires Sound(t) && Inv(t, ai, D, b1, st, depth, 0, L) && 1 <= depth < D
      requires 0 < L.idx[depth] && moveCounts[depth] <= L.idx[depth]
      ensures Inv(t, ai, D, b1, st', newDepth, score, L') && Lex(st', st)
    {
      score := L.best[depth];
      DoneStepOK(t, ai, D, b1, st);
      L', newDepth, score, st' := ReturnStep(t, ai, D, b1, L, depth, score, st);
    }

    /** Enter the child of the top node's current move (x, y), whose board is
        already in ai_buf[depth + 1], with the parent's alpha and beta. */
    method DescendStep(ghost t: Game, ai: Stone, D: int, ghost b1: Grid, L: Locals, depth: int, x: int, y: int, ghost st: Stack)
      returns (L': Locals, newDepth: int, ghost st': Stack)
      requires Sound(t) && Inv(t, ai, D, b1, st, depth, 0, L) && 1 <= depth < D
      requires Listed(depth, st.frames[depth].moves) && L.idx[depth] < moveCounts[depth]
      requires NodeOK(t, ai, D, depth, Lo(st, depth), Hi(st, depth), st.frames[depth])
      requires Pos(x, y) == st.frames[depth].moves[L.idx[depth]]
      requires Cells(buf[depth + 1]) == t.play(Cells(buf[depth]), Pos(x, y), ColorAt(ai, depth))
      ensures Inv(t, ai, D, b1, st', newDepth, 0, L') && Lex(st', st)
    {
      newDepth := depth + 1;
      L' := L.(alpha := L.alpha[newDepth := L.alpha[depth]], beta := L.beta[newDepth := L.beta[depth]],
               idx := L.idx[newDepth := 0], isMax := L.isMax[newDepth := !L.isMax[depth]]);
      ghost var child := t.play(Cells(buf[depth]), Pos(x, y), ColorAt(ai, depth));
      DescendMirrors(st, L, child);
      DescendStepOK(t, ai, D, b1, st);
      DescendBuffers(st, D, child);
      st' := Descend(st, child);
    }

    /** Entering the child whose board ai_buf[depth + 1] holds keeps the
        boards and the listed rows of the path mirrored. */
    lemma DescendBuffers(st: Stack, D: int, child: Grid)
      requires Valid() && Shaped(st) && D <= AiDepth && 1 <= st.depth < D
      requires BoardsMirror(st) && MovesMirror(st, D) && Listed(st.depth, st.frames[st.depth].moves)
      requires Cells(buf[st.depth + 1]) == child
      ensures BoardsMirror(Descend(st, child)) && MovesMirror(Descend(st, child), D)
    {
    }
  
    /** The first visit of an inner node: list its moves; without any it
        passes its static score up, otherwise it opens. */
    method EnterBranch(ghost t: Game, ai: Stone, D: int, ghost b1: Grid, L: Locals, depth: int, ghost st: Stack)
      returns (passed: bool, L': Locals, newDepth: int, score: int, ghost st': Stack)
      requires Searchable(t, ai) && Inv(t, ai, D, b1, st, depth, 0, L) && 1 <= depth < D && L.idx[depth] == 0
      modifies moveCounts, moves
      ensures passed ==> Inv(t, ai, D, b1, st', newDepth, score, L') && Lex(st', st)
      ensures !passed ==> (Inv(t, ai, D, b1, st', depth, 0, L') && L'.idx[depth] == 0 < moveCounts[depth] &&
        Listed(depth, st'.frames[depth].moves) && NodeOK(t, ai, D, depth, Lo(st', depth), Hi(st', depth), st'.frames[depth]) &&
        forall k | 1 <= k <= AiDepth :: Rank(st', k) == Rank(st, k))
      ensures moveCounts[0] == old(moveCounts[0]) && forall j | 0 <= j < MaxMoves :: moves[0, j] == old(moves[0, j])
    {
      var color := ColorAt(ai, depth);
      ListNodeMoves(depth, color, ai, t, D, b1, L, st);
      if moveCounts[depth] == 0 {
        passed := true;
        score := StaticScore(depth, ai, t);
        L', newDepth, st' := PassStep(t, ai, D, b1, L, depth, score, st);
      } else {
        passed, newDepth, score := false, depth, 0;
        L', st' := OpenStep(t, ai, D, b1, L, depth, st);
      }
    }

    /** An inner node that has its moves listed: return its best score once
        they are all taken, otherwise simulate the current one and descend. */
    method AdvanceBranch(ghost t: Game, ai: Stone, D: int, ghost b1: Grid, L: Locals, depth: int, ghost st: Stack)
      returns (L': Locals, newDepth: int, score: int, ghost st': Stack)
      requires Searchable(t, ai) && Inv(t, ai, D, b1, st, depth, 0, L) && 1 <= depth < D
      requires Listed(depth, st.frames[depth].moves) && NodeOK(t, ai, D, depth, Lo(st, depth), Hi(st, depth), st.frames[depth])
      requires L.idx[depth] == 0 ==> 0 < moveCounts[depth]
      modifies buf[depth + 1]
      ensures Inv(t, ai, D, b1, st', newDepth, score, L') && Lex(st', st)
    {
      if L.idx[depth] >= moveCounts[depth] {
        L', newDepth, score, st' := DoneStep(t, ai, D, b1, L, depth, st);
      } else {
        var x, y := moves[depth, L.idx[depth]].x, moves[depth, L.idx[depth]].y;
        SimulateNode(depth, x, y, ColorAt(ai, depth), ai, t, D, b1, L, st);
        score := 0;
        L', newDepth, st' := DescendStep(t, ai, D, b1, L, depth, x, y, st);
      }
    }

    /** One pass of the while loop of minimax_alphabeta, from the top node at
        depth: a leaf returns its score; an inner node visited the first time
        lists its moves and passes without any or opens; a node whose moves
        are all taken returns its best; otherwise the current move is
        simulated into ai_buf[depth + 1] and the search descends into it. */
    method Step(ghost t: Game, ai: Stone, maxDepth: int, ghost b1: Grid, L: Locals, depth: int, ghost st: Stack)
      returns (L': Locals, newDepth: int, score: int, ghost st': Stack)
      requires Searchable(t, ai) && Inv(t, ai, maxDepth, b1, st, depth, 0, L) && 1 <= depth
      modifies buf[2], buf[3], moveCounts, moves
      ensures Inv(t, ai, maxDepth, b1, st', newDepth, score, L') && Lex(st', st)
      ensures moveCounts[0] == old(moveCounts[0]) && forall j | 0 <= j < MaxMoves :: moves[0, j] == old(moves[0, j])
    {
      if depth >= maxDepth {
        score := StaticScore(depth, ai, t);
        L', newDepth, score, st' := LeafStep(t, ai, maxDepth, b1, L, depth, score, st);
      } else {
        L', newDepth, score, st' := BranchStep(t, ai, maxDepth, b1, L, depth, st);
      }
    }

    /** A pass at an inner node: list the moves on the first visit, then
        take the current one or return. */
    method BranchStep(ghost t: Game, ai: Stone, maxDepth: int, ghost b1: Grid, L: Locals, depth: int, ghost st: Stack)
      returns (L': Locals, newDepth: int, score: int, ghost st': Stack)
      requires Searchable(t, ai) && Inv(t, ai, maxDepth, b1, st, depth, 0, L) && 1 <= depth < maxDepth
      modifies buf[2], buf[3], moveCounts, moves
      ensures Inv(t, ai, maxDepth, b1, st', newDepth, score, L') && Lex(st', st)
      ensures moveCounts[0] == old(moveCounts[0]) && forall j | 0 <= j < MaxMoves :: moves[0, j] == old(moves[0, j])
    {
      if L.idx[depth] == 0 {
        var passed, L1, d1, s1, st1 := EnterBranch(t, ai, maxDepth, b1, L, depth, st);
        if passed {
          L', newDepth, score, st' := L1, d1, s1, st1;
        } else {
          L', newDepth, score, st' := AdvanceBranch(t, ai, maxDepth, b1, L1, depth, st1);
        }
      } else {
        L', newDepth, score, st' := AdvanceBranch(t, ai, maxDepth, b1, L, depth, st);
      }
    }
  
    /** The search below one root move, whose child board is in ai_buf[1]:
        the stack set-up and the while loop of minimax_alphabeta. The local
        stacks outlive the loop, as the C arrays do between root moves. */
    method ScoreMove(ghost t: Game, ai: Stone, maxDepth: int, L0: Locals) returns (score: int, L: Locals)
      requires Searchable(t, ai) && Valid() && 1 <= maxDepth <= AiDepth && L0.Valid()
      modifies buf[2], buf[3], moveCounts, moves
      ensures score == Value(t, ai, maxDepth, old(Cells(buf[1])), 1) && L.Valid()
      ensures moveCounts[0] == old(moveCounts[0]) && forall j | 0 <= j < MaxMoves :: moves[0, j] == old(moves[0, j])
    {
      ghost var b1 := Cells(buf[1]);
      L := L0.(alpha := L0.alpha[1 := -Inf], beta := L0.beta[1 := Inf], idx := L0.idx[1 := 0], isMax := L0.isMax[1 := false]);
      var depth := 1;
      score := -Inf;
      ghost var st := Stack(1, seq(AiDepth + 1, k requires 0 <= k <= AiDepth => Frame(L.alpha[k], L.beta[k], L.best[k], L.idx[k], b1, [])));
      StartOK(t, ai, maxDepth, b1, st);
      while depth > 0
        invariant Inv(t, ai, maxDepth, b1, st, depth, score, L)
        invariant moveCounts[0] == old(moveCounts[0]) && forall j | 0 <= j < MaxMoves :: moves[0, j] == old(moves[0, j])
        decreases if depth > 0 then 1 else 0, Rank(st, 1), Rank(st, 2), Rank(st, 3)
      {
        L, depth, score, st := Step(t, ai, maxDepth, b1, L, depth, st);
      }
    }

    /** The body of the root loop of minimax_alphabeta: simulate root move i
        into ai_buf[1], search below it and record its score in ai_moves[0]. */
    method RootMove(i: int, ai: Stone, maxDepth: int, ghost t: Game, ghost g0: Grid, ghost ms: seq<Pos>, L: Locals)
      returns (score: int, L': Locals)
      requires Searchable(t, ai) && Valid() && 1 <= maxDepth <= AiDepth && L.Valid()
      requires ms == t.moves(g0, ai) && Listed(0, ms) && 0 <= i < moveCounts[0] && Cells(buf[0]) == g0
      modifies buf[1], buf[2], buf[3], moveCounts, moves
      ensures score == RootScore(t, ai, maxDepth, g0, ms[i]) && L'.Valid()
      ensures Listed(0, ms) && Cells(buf[0]) == g0 && moves[0, i].score == score
      ensures forall j | 0 <= j < MaxMoves && j != i :: moves[0, j] == old(moves[0, j])
    {
      var x, y := moves[0, i].x, moves[0, i].y;
      Simulate(0, x, y, ai, ai, t);
      score, L' := ScoreMove(t, ai, maxDepth, L);
      moves[0, i] := moves[0, i].(score := score);
    }

    /** The root loop of minimax_alphabeta over the moves listed for board
        g0 (in ai_buf[0]): each gets the value of its child, and the best of
        them is returned. */
    method ScoreRootMoves(ai: Stone, maxDepth: int, ghost t: Game, ghost g0: Grid) returns (bestScore: int)
      requires Searchable(t, ai) && Valid() && 1 <= maxDepth <= AiDepth
      requires Listed(0, t.moves(g0, ai)) && Cells(buf[0]) == g0
      modifies buf[1], buf[2], buf[3], moveCounts, moves
      ensures Listed(0, t.moves(g0, ai))
      ensures forall j | 0 <= j < moveCounts[0] :: moves[0, j].score == RootScore(t, ai, maxDepth, g0, t.moves(g0, ai)[j])
      ensures bestScore == SearchValue(t, ai, maxDepth, g0)
    {
      ghost var ms := t.moves(g0, ai);
      bestScore := -Inf;
      var L := Locals(seq(AiDepth + 1, _ => 0), seq(AiDepth + 1, _ => 0), seq(AiDepth + 1, _ => 0),
                      seq(AiDepth + 1, _ => 0), seq(AiDepth + 1, _ => false));
      var i := 0;
      while i < moveCounts[0]
        invariant 0 <= i <= moveCounts[0] && L.Valid()
        invariant Listed(0, ms) && Cells(buf[0]) == g0
        invariant forall j | 0 <= j < i :: moves[0, j].score == RootScore(t, ai, maxDepth, g0, ms[j])
        invariant bestScore == Fold(t, ai, maxDepth, g0, 0, ms, i)
      {
        bestScore, L := RootRound(i, ai, maxDepth, t, g0, ms, L, bestScore);
        i := i + 1;
      }
    }

    /** One round of the root loop: score root move i and keep the best. */
    method RootRound(i: int, ai: Stone, maxDepth: int, ghost t: Game, ghost g0: Grid, ghost ms: seq<Pos>, L: Locals, bestScore: int)
      returns (bestScore': int, L': Locals)
      requires Searchable(t, ai) && Valid() && 1 <= maxDepth <= AiDepth && L.Valid()
      requires ms == t.moves(g0, ai) && Listed(0, ms) && 0 <= i < moveCounts[0] && Cells(buf[0]) == g0
      requires forall j | 0 <= j < i :: moves[0, j].score == RootScore(t, ai, maxDepth, g0, ms[j])
      requires bestScore == Fold(t, ai, maxDepth, g0, 0, ms, i)
      modifies buf[1], buf[2], buf[3], moveCounts, moves
      ensures L'.Valid() && Listed(0, ms) && Cells(buf[0]) == g0
      ensures forall j | 0 <= j < i + 1 :: moves[0, j].score == RootScore(t, ai, maxDepth, g0, ms[j])
      ensures bestScore' == Fold(t, ai, maxDepth, g0, 0, ms, i + 1)
    {
      var score;
      score, L' := RootMove(i, ai, maxDepth, t, g0, ms, L);
      RootFoldStep(t, ai, maxDepth, g0, ms, i);
      bestScore' := if score > bestScore then score else bestScore;
    }

    /** minimax_alphabeta: list the root moves of board brd with score -INF
        (returning -INF when there is none), then give each root move the
        value of its child and return the best of them. For every game t that
        the program's functions play, the result is the plain minimax value
        SearchValue, and each root move's score is its RootScore. */
    method MinimaxAlphaBeta(brd: array2<Stone>, ai: Stone, maxDepth: int, ghost t: Game) returns (bestScore: int)
      requires Valid() && IsBoard(brd) && brd !in buf && 1 <= maxDepth <= AiDepth
      requires Searchable(t, ai)
      modifies buf[0], buf[1], buf[2], buf[3], moveCounts, moves
      ensures Listed(0, t.moves(Cells(brd), ai))
      ensures forall j | 0 <= j < moveCounts[0] :: moves[0, j].score == RootScore(t, ai, maxDepth, Cells(brd), t.moves(Cells(brd), ai)[j])
      ensures bestScore == SearchValue(t, ai, maxDepth, Cells(brd))
      ensures Cells(brd) == old(Cells(brd))
    {
      ghost var g0 := Cells(brd);
      CopyBoard(buf[0], brd);
      ListRootMoves(ai, t);
      if moveCounts[0] == 0 {
        return -Inf;
      }
      bestScore := ScoreRootMoves(ai, maxDepth, t, g0);
    }
  
    /** The first loop of set_AI_cursor_dest: the best score of row 0 of
        ai_moves, whose scores are s. */
    method BestScore(ghost s: seq<int>) returns (best: int)
      requires Valid() && moveCounts[0] == |s| <= MaxMoves
      requires forall j | 0 <= j < |s| :: moves[0, j].score == s[j]
      ensures best == BestOf(s, |s|)
    {
      best := -Inf;
      var i := 0;
      while i < moveCounts[0]
        invariant 0 <= i <= |s| && best == BestOf(s, i)
      {
        if moves[0, i].score > best {
          best := moves[0, i].score;
        }
        i := i + 1;
      }
    }

    /** The second loop of set_AI_cursor_dest: record in ai_entry_idx the
        indices of row 0 whose score is best. With none, ai_entry_idx is left
        as it was. */
    method CollectTies(ghost s: seq<int>, best: int) returns (bestCount: int)
      requires Valid() && EntriesOK() && moveCounts[0] == |s| <= MaxMoves
      requires forall j | 0 <= j < |s| :: moves[0, j].score == s[j]
      modifies entryIdx
      ensures EntriesOK() && bestCount == |Ties(s, best, |s|)|
      ensures forall k | 0 <= k < bestCount :: entryIdx[k] == Ties(s, best, |s|)[k]
      ensures bestCount == 0 ==> entryIdx[0] == old(entryIdx[0])
    {
      bestCount := 0;
      ghost var ties: seq<int> := [];
      var i := 0;
      while i < moveCounts[0]
        invariant 0 <= i <= |s| && EntriesOK() && ties == Ties(s, best, i) && bestCount == |ties|
        invariant forall k | 0 <= k < bestCount :: entryIdx[k] == ties[k]
        invariant bestCount == 0 ==> entryIdx[0] == old(entryIdx[0])
      {
        if moves[0, i].score == best {
          entryIdx[bestCount] := i;
          bestCount := bestCount + 1;
          ties := ties + [i];
        }
        i := i + 1;
      }
    }

    /** The loops and the tie-break of set_AI_cursor_dest over row 0 of
        ai_moves, whose scores are s: the index of the chosen root move. */
    method ChooseBest(ghost s: seq<int>, rnd: nat) returns (bestIdx: int)
      requires Valid() && EntriesOK() && moveCounts[0] == |s| <= MaxMoves
      requires forall j | 0 <= j < |s| :: moves[0, j].score == s[j]
      modifies entryIdx
      ensures EntriesOK() && 0 <= bestIdx < MaxMoves
      ensures |Ties(s, BestOf(s, |s|), |s|)| > 0 ==> bestIdx == Pick(Ties(s, BestOf(s, |s|), |s|), rnd)
      ensures |Ties(s, BestOf(s, |s|), |s|)| == 0 ==> bestIdx == entryIdx[0] == old(entryIdx[0])
    {
      var best := BestScore(s);
      var bestCount := CollectTies(s, best);
      if bestCount > 1 {
        bestIdx := entryIdx[rnd % bestCount];
      } else {
        bestIdx := entryIdx[0];
      }
    }

    /** The search and the choice of set_AI_cursor_dest when placeable_count
        is not 0: the index into row 0 of ai_moves of the destination. */
    method SearchAndChoose(brd: array2<Stone>, sc: Stone, depth: int, rnd: nat, ghost t: Game) returns (bestIdx: int)
      requires Valid() && EntriesOK() && IsBoard(brd) && brd !in buf && 1 <= depth <= AiDepth && Searchable(t, sc)
      modifies buf[0], buf[1], buf[2], buf[3], moveCounts, moves, entryIdx
      ensures EntriesOK() && Cells(brd) == old(Cells(brd)) && 0 <= bestIdx < MaxMoves
      ensures |t.moves(Cells(brd), sc)| > 0 ==>
        Pos(moves[0, bestIdx].x, moves[0, bestIdx].y) == t.moves(Cells(brd), sc)[AiChoice(t, sc, depth, Cells(brd), rnd)]
      ensures |t.moves(Cells(brd), sc)| == 0 ==> bestIdx == entryIdx[0] == old(entryIdx[0])
    {
      ghost var g := Cells(brd);
      var _ := MinimaxAlphaBeta(brd, sc, depth, t);
      ghost var s := RootScores(t, sc, depth, g);
      if |s| > 0 {
        BestOfAttained(t, sc, depth, g);
      }
      bestIdx := ChooseBest(s, rnd);
    }

    /** set_AI_cursor_dest for colour sc on board brd, placeable_count and
        search depth depth, with rnd standing for rand(). Without a
        placeable square the destination is the cursor itself. Otherwise the
        root moves are searched and the destination is the tied best move
        AiChoice picks; if placeable_count is wrong and there is no move, the
        destination is read through the stale ai_entry_idx[0]. */
    method SetAICursorDest(brd: array2<Stone>, sc: Stone, placeableCount: int, depth: int, rnd: nat, cursor: Cursor, ghost t: Game)
      requires Valid() && EntriesOK() && IsBoard(brd) && brd !in buf && 1 <= depth <= AiDepth && Searchable(t, sc)
      modifies buf[0], buf[1], buf[2], buf[3], moveCounts, moves, entryIdx, cursor
      ensures EntriesOK() && Cells(brd) == old(Cells(brd))
      ensures cursor.x == old(cursor.x) && cursor.y == old(cursor.y) && cursor.color == old(cursor.color)
      ensures placeableCount == 0 ==> cursor.destX == cursor.x && cursor.destY == cursor.y
      ensures placeableCount != 0 && |t.moves(Cells(brd), sc)| > 0 ==>
        Pos(cursor.destX, cursor.destY) == t.moves(Cells(brd), sc)[AiChoice(t, sc, depth, Cells(brd), rnd)]
      ensures placeableCount != 0 && |t.moves(Cells(brd), sc)| == 0 ==>
        entryIdx[0] == old(entryIdx[0]) && cursor.destX == moves[0, entryIdx[0]].x && cursor.destY == moves[0, entryIdx[0]].y
    {
      if placeableCount == 0 {
        cursor.destX := cursor.x;
        cursor.destY := cursor.y;
        return;
      }
      var bestIdx := SearchAndChoose(brd, sc, depth, rnd, t);
      cursor.destX := moves[0, bestIdx].x;
      cursor.destY := moves[0, bestIdx].y;
    }
  }
}
