/** The static evaluation of othello/othello.c, scored from the point of view
    of the AI's colour: the position-weight table, the mobility difference
    and the corner ("stable") stones in a weighted sum, and the stone-count
    difference, which the source computes in a routine of its own that the
    sum does not use. */
module Evaluator {
  import opened Board
  import opened Rules

  const PosWeight: int := 10
  const MobilityWeight: int := 2
  const StableWeight: int := 50

  /** The stand-in for infinity in the search. */
  const Inf: int := 100000

  /** POSITION_WEIGHTS, indexed [y][x]. */
  const PositionWeights: seq<seq<int>> := [
    [120, -40,  20,  10,  10,  20, -40, 120],
    [-40, -50,  -5,  -5,  -5,  -5, -50, -40],
    [ 20,  -5,  15,  10,  10,  15,  -5,  20],
    [ 10,  -5,  10,   5,   5,  10,  -5,  10],
    [ 10,  -5,  10,   5,   5,  10,  -5,  10],
    [ 20,  -5,  15,  10,  10,  15,  -5,  20],
    [-40, -50,  -5,  -5,  -5,  -5, -50, -40],
    [120, -40,  20,  10,  10,  20, -40, 120]
  ]

  function Weight(x: int, y: int): int
    requires InBoard(x, y)
  {
    PositionWeights[y][x]
  }

  /** No square is worth more than a corner, in either direction. */
  lemma WeightBound(x: int, y: int)
    requires InBoard(x, y)
    ensures -120 <= Weight(x, y) <= 120
  {
    var row := PositionWeights[y];
    assert row in PositionWeights;
  }

  /** Weights of the cells of row y with column < w that hold c. */
  function RowWeight(g: Grid, c: Stone, y: int, w: int): int
    requires 0 <= y < 8 && 0 <= w <= 8
  {
    if w == 0 then 0
    else RowWeight(g, c, y, w - 1) + (if g[y][w - 1] == c then Weight(w - 1, y) else 0)
  }

  /** Weights of the cells with row < h that hold c, summed row by row. */
  function WeightSum(g: Grid, c: Stone, h: int): int
    requires 0 <= h <= 8
  {
    if h == 0 then 0 else WeightSum(g, c, h - 1) + RowWeight(g, c, h - 1, 8)
  }

  /** The value evaluate_position_weight returns. */
  function PositionScore(g: Grid, ai: Stone): int
  {
    WeightSum(g, ai, 8) - WeightSum(g, Opp(ai), 8)
  }

  /** The value evaluate_stone_count returns. */
  function StoneDiff(g: Grid, ai: Stone): int
  {
    StoneCount(g, ai) - StoneCount(g, Opp(ai))
  }

  /** The stones of colour c in row y among the first w columns, counted the
      way evaluate_stone_count walks the row. */
  function RowStones(g: Grid, c: Stone, y: int, w: int): int
    requires 0 <= y < 8 && 0 <= w <= 8
  {
    if w == 0 then 0 else RowStones(g, c, y, w - 1) + (if g[y][w - 1] == c then 1 else 0)
  }

  /** The stones of colour c in the first h rows. */
  function StoneRows(g: Grid, c: Stone, h: int): int
    requires 0 <= h <= 8
  {
    if h == 0 then 0 else StoneRows(g, c, h - 1) + RowStones(g, c, h - 1, 8)
  }

  lemma {:induction false} RowStonesCount(g: Grid, c: Stone, y: int, w: int)
    requires 0 <= y < 8 && 0 <= w <= 8
    ensures RowStones(g, c, y, w) == RowCount(StoneAt(g, c), y, w)
  {
    if w > 0 {
      RowStonesCount(g, c, y, w - 1);
      assert StoneAt(g, c)(w - 1, y) == (g[y][w - 1] == c);
    }
  }

  lemma {:induction false} StoneRowsCount(g: Grid, c: Stone, h: int)
    requires 0 <= h <= 8
    ensures StoneRows(g, c, h) == RowSum(StoneAt(g, c), h, 8)
  {
    if h > 0 {
      StoneRowsCount(g, c, h - 1);
      RowStonesCount(g, c, h - 1, 8);
    }
  }

  /** Counting row by row gives the board's stone count. */
  lemma StoneRowsAreCount(g: Grid, c: Stone)
    ensures StoneRows(g, c, 8) == StoneCount(g, c)
  {
    StoneRowsCount(g, c, 8);
    ColSumIsRowSum(StoneAt(g, c), 8, 8);
  }

  /** The value count_stable_stones returns: the corners holding c. */
  function StableCount(g: Grid, c: Stone): (n: int)
    ensures 0 <= n <= 4
    ensures n == 4 <==> g[0][0] == c && g[0][7] == c && g[7][0] == c && g[7][7] == c
  {
    (if g[0][0] == c then 1 else 0) + (if g[0][7] == c then 1 else 0)
    + (if g[7][0] == c then 1 else 0) + (if g[7][7] == c then 1 else 0)
  }

  /** The value evaluate_board returns for the AI colour ai. */
  function Evaluate(g: Grid, ai: Stone): int
  {
    PositionScore(g, ai) * PosWeight
    + (PlaceableCount(g, ai) - PlaceableCount(g, Opp(ai))) * MobilityWeight
    + (StableCount(g, ai) - StableCount(g, Opp(ai))) * StableWeight
  }

  // ---------------------------------------------------------------------------
  // Properties of the evaluation

  /** A cell holds at most one of two different colours, so a row's weights
      for the two differ by at most 120 per cell. */
  lemma {:induction false} RowWeightDiff(g: Grid, a: Stone, b: Stone, y: int, w: int)
    requires a != b && 0 <= y < 8 && 0 <= w <= 8
    ensures -120 * w <= RowWeight(g, a, y, w) - RowWeight(g, b, y, w) <= 120 * w
  {
    if w > 0 {
      RowWeightDiff(g, a, b, y, w - 1);
      WeightBound(w - 1, y);
    }
  }

  lemma {:induction false} WeightSumDiff(g: Grid, a: Stone, b: Stone, h: int)
    requires a != b && 0 <= h <= 8
    ensures -960 * h <= WeightSum(g, a, h) - WeightSum(g, b, h) <= 960 * h
  {
    if h > 0 {
      WeightSumDiff(g, a, b, h - 1);
      RowWeightDiff(g, a, b, h - 1, 8);
    }
  }

  /** The position term is bounded by 64 corner weights. */
  lemma PositionScoreBound(g: Grid, ai: Stone)
    ensures -7680 <= PositionScore(g, ai) <= 7680
  {
    WeightSumDiff(g, ai, Opp(ai), 8);
  }

  /** The stone-count difference is bounded by the 64 cells. */
  lemma StoneDiffBound(g: Grid, ai: Stone)
    ensures -64 <= StoneDiff(g, ai) <= 64
  {
    ColSumBound(StoneAt(g, ai), 8, 8);
    ColSumBound(StoneAt(g, Opp(ai)), 8, 8);
  }

  /** Every evaluation lies strictly between -INF and INF, so the search's
      initial bounds are never returned by a leaf. */
  lemma EvaluateBounded(g: Grid, ai: Stone)
    ensures -Inf < Evaluate(g, ai) < Inf
  {
    PositionScoreBound(g, ai);
    ColSumBound(PlaceableAt(g, ai), 8, 8);
    ColSumBound(PlaceableAt(g, Opp(ai)), 8, 8);
  }

  /** Scoring for red is scoring for green with the sign turned: the position,
      mobility and corner terms are each antisymmetric. */
  lemma EvaluateAntisymmetric(g: Grid)
    ensures Evaluate(g, Red) == -Evaluate(g, Green)
    ensures PositionScore(g, Red) == -PositionScore(g, Green)
    ensures StoneDiff(g, Red) == -StoneDiff(g, Green)
  {
  }

  // ---------------------------------------------------------------------------
  // The evaluators as they run over the board array

  /** evaluate_position_weight: row by row, add the weight of every AI stone
      and of every opponent stone, and return the difference. */
  method EvaluatePositionWeight(a: array2<Stone>, ai: Stone) returns (score: int)
    requires IsBoard(a)
    ensures score == PositionScore(Cells(a), ai)
  {
    ghost var g := Cells(a);
    var opp := if ai == Red then Green else Red;
    var aiScore, oppScore := 0, 0;
    var y := 0;
    while y < Height
      invariant 0 <= y <= Height
      invariant aiScore == WeightSum(g, ai, y) && oppScore == WeightSum(g, opp, y)
    {
      var x := 0;
      while x < Width
        invariant 0 <= x <= Width
        invariant aiScore == WeightSum(g, ai, y) + RowWeight(g, ai, y, x)
        invariant oppScore == WeightSum(g, opp, y) + RowWeight(g, opp, y, x)
      {
        if a[y, x] == ai {
          aiScore := aiScore + PositionWeights[y][x];
        } else if a[y, x] == opp {
          oppScore := oppScore + PositionWeights[y][x];
        }
        x := x + 1;
      }
      y := y + 1;
    }
    score := aiScore - oppScore;
  }

  /** evaluate_stone_count: row by row, count the AI's and the opponent's
      stones and return the difference. The program defines it but never
      calls it. */
  method EvaluateStoneCount(a: array2<Stone>, ai: Stone) returns (diff: int)
    requires IsBoard(a)
    ensures diff == StoneDiff(Cells(a), ai)
  {
    ghost var g := Cells(a);
    var opp := if ai == Red then Green else Red;
    var aiCount, oppCount := 0, 0;
    var y := 0;
    while y < Height
      invariant 0 <= y <= Height
      invariant aiCount == StoneRows(g, ai, y) && oppCount == StoneRows(g, opp, y)
    {
      var x := 0;
      while x < Width
        invariant 0 <= x <= Width
        invariant aiCount == StoneRows(g, ai, y) + RowStones(g, ai, y, x)
        invariant oppCount == StoneRows(g, opp, y) + RowStones(g, opp, y, x)
      {
        if a[y, x] == ai {
          aiCount := aiCount + 1;
        } else if a[y, x] == opp {
          oppCount := oppCount + 1;
        }
        x := x + 1;
      }
      y := y + 1;
    }
    StoneRowsAreCount(g, ai);
    StoneRowsAreCount(g, opp);
    diff := aiCount - oppCount;
  }

  /** count_stable_stones: the four corners holding sc. */
  method CountStableStones(a: array2<Stone>, sc: Stone) returns (count: int)
    requires IsBoard(a)
    ensures count == StableCount(Cells(a), sc)
  {
    count := 0;
    if a[0, 0] == sc { count := count + 1; }
    if a[0, Width - 1] == sc { count := count + 1; }
    if a[Height - 1, 0] == sc { count := count + 1; }
    if a[Height - 1, Width - 1] == sc { count := count + 1; }
  }

  /** evaluate_board: the weighted sum of the position, mobility and corner
      terms. */
  method EvaluateBoard(a: array2<Stone>, ai: Stone) returns (score: int)
    requires IsBoard(a)
    ensures score == Evaluate(Cells(a), ai)
  {
    var opp := if ai == Red then Green else Red;
    var positionScore := EvaluatePositionWeight(a, ai);
    var aiMobility := CountPlaceable(a, ai);
    var oppMobility := CountPlaceable(a, opp);
    var mobilityScore := aiMobility - oppMobility;
    var aiStable := CountStableStones(a, ai);
    var oppStable := CountStableStones(a, opp);
    var stableScore := (aiStable - oppStable) * StableWeight;
    score := positionScore * PosWeight + mobilityScore * MobilityWeight + stableScore;
  }
}
