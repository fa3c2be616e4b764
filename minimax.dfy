/** The value minimax_alphabeta in othello/othello.c is meant to compute, as
    plain depth-bounded minimax without any pruning. A node at depth k is a
    board on which ColorAt(ai, k) is to move: the AI at even depths (maximising)
    and its opponent at odd depths (minimising).

    The tree is described by a Game: the moves a colour may make on a board,
    the board a move leads to and the static score of a board. Othello(ai) is
    the game the program searches; the lemmas hold for every game whose scores
    lie strictly between -INF and INF. */
module Minimax {
  import opened Board
  import opened Evaluator

  /** AI_DEPTH: the deepest search the global buffers can hold. */
  const AiDepth: int := 3

  function Max(a: int, b: int): int
  {
    if a >= b then a else b
  }

  /** The colour to move at depth k: the opponent at odd depths, the AI at even ones. */
  function ColorAt(ai: Stone, k: int): Stone
  {
    if k % 2 == 1 then Opp(ai) else ai
  }

  datatype Game = Game(moves: (Grid, Stone) -> seq<Pos>, play: (Grid, Pos, Stone) -> Grid, score: Grid -> int)

  /** Every static score is a real value, strictly inside the search's bounds. */
  ghost predicate Bounded(t: Game)
  {
    forall g: Grid :: -Inf < t.score(g) < Inf
  }

  /** The board the search simulates for move m of colour c. The search only
      flips: the cell of the move itself stays as it was. */
  ghost function Child(b: Grid, m: Pos, c: Stone): Grid
  {
    Flipped(b, FlipMask(b, m.x, m.y, c), m.x, m.y, c)
  }

  /** The game the program searches for the AI colour ai: the legal moves in
      row-major order, the flip-only child board, and evaluate_board. */
  ghost function Othello(ai: Stone): Game
  {
    Game((b: Grid, c: Stone) => LegalMoves(b, c), (b: Grid, m: Pos, c: Stone) => Child(b, m, c), (b: Grid) => Evaluate(b, ai))
  }

  /** The minimax value of board b at depth k of a search of depth D. Nodes at
      depth D and nodes whose mover has no move are scored statically. */
  ghost function Value(t: Game, ai: Stone, D: int, b: Grid, k: int): int
    decreases D - k, 2, 0
  {
    if k >= D then t.score(b)
    else
      var ms := t.moves(b, ColorAt(ai, k));
      if |ms| == 0 then t.score(b) else Fold(t, ai, D, b, k, ms, |ms|)
  }

  /** The value of the child that move ms[j] leads to. */
  ghost function ChildValue(t: Game, ai: Stone, D: int, b: Grid, k: int, ms: seq<Pos>, j: int): int
    requires k < D && 0 <= j < |ms|
    decreases D - k, 0, 0
  {
    Value(t, ai, D, t.play(b, ms[j], ColorAt(ai, k)), k + 1)
  }

  /** The best of the children of the first n moves in ms, starting from -INF
      (maximising depth) or INF (minimising depth). */
  ghost function Fold(t: Game, ai: Stone, D: int, b: Grid, k: int, ms: seq<Pos>, n: int): int
    requires k < D && 0 <= n <= |ms|
    decreases D - k, 0, n + 1
  {
    if n == 0 then (if k % 2 == 0 then -Inf else Inf)
    else if k % 2 == 0 then Max(Fold(t, ai, D, b, k, ms, n - 1), ChildValue(t, ai, D, b, k, ms, n - 1))
    else Min(Fold(t, ai, D, b, k, ms, n - 1), ChildValue(t, ai, D, b, k, ms, n - 1))
  }

  /** The score the search gives the root move m: the value of its child at depth 1. */
  ghost function RootScore(t: Game, ai: Stone, D: int, b: Grid, m: Pos): int
  {
    Value(t, ai, D, t.play(b, m, ai), 1)
  }

  /** What minimax_alphabeta returns: the best root score, or -INF without a move. */
  ghost function SearchValue(t: Game, ai: Stone, D: int, b: Grid): int
    requires 1 <= D
  {
    Fold(t, ai, D, b, 0, t.moves(b, ai), |t.moves(b, ai)|)
  }

  // ---------------------------------------------------------------------------
  // Properties of the specification

  /** evaluate_board never reaches the search's bounds. */
  lemma OthelloBounded(ai: Stone)
    ensures Bounded(Othello(ai))
  {
    forall g: Grid
      ensures -Inf < Othello(ai).score(g) < Inf
    {
      EvaluateBounded(g, ai);
    }
  }

  /** Every node value lies strictly between -INF and INF. */
  lemma {:induction false} ValueBounds(t: Game, ai: Stone, D: int, b: Grid, k: int)
    requires Bounded(t)
    ensures -Inf < Value(t, ai, D, b, k) < Inf
    decreases D - k, 2, 0
  {
    if k < D {
      var ms := t.moves(b, ColorAt(ai, k));
      if |ms| > 0 {
        FoldBounds(t, ai, D, b, k, ms, |ms|);
      }
    }
  }

  /** A fold over no move is its starting bound; over some move it is a real value. */
  lemma {:induction false} FoldBounds(t: Game, ai: Stone, D: int, b: Grid, k: int, ms: seq<Pos>, n: int)
    requires Bounded(t) && k < D && 0 <= n <= |ms|
    ensures n == 0 ==> Fold(t, ai, D, b, k, ms, n) == (if k % 2 == 0 then -Inf else Inf)
    ensures n > 0 ==> -Inf < Fold(t, ai, D, b, k, ms, n) < Inf
    decreases D - k, 0, n + 1
  {
    if n > 0 {
      FoldBounds(t, ai, D, b, k, ms, n - 1);
      ValueBounds(t, ai, D, t.play(b, ms[n - 1], ColorAt(ai, k)), k + 1);
    }
  }

  /** Folding more moves only raises a maximum and only lowers a minimum. */
  lemma {:induction false} FoldMonotone(t: Game, ai: Stone, D: int, b: Grid, k: int, ms: seq<Pos>, n: int, m: int)
    requires k < D && 0 <= n <= m <= |ms|
    ensures if k % 2 == 0 then Fold(t, ai, D, b, k, ms, n) <= Fold(t, ai, D, b, k, ms, m)
            else Fold(t, ai, D, b, k, ms, n) >= Fold(t, ai, D, b, k, ms, m)
    decreases m - n
  {
    if n < m {
      FoldMonotone(t, ai, D, b, k, ms, n, m - 1);
    }
  }

  /** At a maximising depth the fold is the largest child value, and some child attains it. */
  lemma {:induction false} FoldIsMax(t: Game, ai: Stone, D: int, b: Grid, k: int, ms: seq<Pos>, n: int)
    requires Bounded(t) && k < D && k % 2 == 0 && 0 < n <= |ms|
    ensures forall j | 0 <= j < n :: ChildValue(t, ai, D, b, k, ms, j) <= Fold(t, ai, D, b, k, ms, n)
    ensures exists j | 0 <= j < n :: ChildValue(t, ai, D, b, k, ms, j) == Fold(t, ai, D, b, k, ms, n)
  {
    if n > 1 {
      FoldIsMax(t, ai, D, b, k, ms, n - 1);
      var j :| 0 <= j < n - 1 && ChildValue(t, ai, D, b, k, ms, j) == Fold(t, ai, D, b, k, ms, n - 1);
      if ChildValue(t, ai, D, b, k, ms, n - 1) <= Fold(t, ai, D, b, k, ms, n - 1) {
        assert ChildValue(t, ai, D, b, k, ms, j) == Fold(t, ai, D, b, k, ms, n);
      } else {
        assert ChildValue(t, ai, D, b, k, ms, n - 1) == Fold(t, ai, D, b, k, ms, n);
      }
    } else {
      ValueBounds(t, ai, D, t.play(b, ms[0], ColorAt(ai, k)), k + 1);
      assert ChildValue(t, ai, D, b, k, ms, 0) == Fold(t, ai, D, b, k, ms, 1);
    }
  }

  /** The search returns -INF exactly when the AI has no move. */
  lemma SearchValueNoMoves(t: Game, ai: Stone, D: int, b: Grid)
    requires Bounded(t) && 1 <= D
    ensures SearchValue(t, ai, D, b) == -Inf <==> |t.moves(b, ai)| == 0
  {
    FoldBounds(t, ai, D, b, 0, t.moves(b, ai), |t.moves(b, ai)|);
  }

  /** With a move, the search value is the largest root score, attained by some move. */
  lemma SearchValueIsBestRoot(t: Game, ai: Stone, D: int, b: Grid)
    requires Bounded(t) && 1 <= D && |t.moves(b, ai)| > 0
    ensures forall m | m in t.moves(b, ai) :: RootScore(t, ai, D, b, m) <= SearchValue(t, ai, D, b)
    ensures exists m | m in t.moves(b, ai) :: RootScore(t, ai, D, b, m) == SearchValue(t, ai, D, b)
  {
    var ms := t.moves(b, ai);
    FoldIsMax(t, ai, D, b, 0, ms, |ms|);
    forall m | m in ms
      ensures RootScore(t, ai, D, b, m) <= SearchValue(t, ai, D, b)
    {
      var j :| 0 <= j < |ms| && ms[j] == m;
      assert ChildValue(t, ai, D, b, 0, ms, j) == RootScore(t, ai, D, b, m);
    }
    var j :| 0 <= j < |ms| && ChildValue(t, ai, D, b, 0, ms, j) == SearchValue(t, ai, D, b);
    assert RootScore(t, ai, D, b, ms[j]) == SearchValue(t, ai, D, b);
  }
}
