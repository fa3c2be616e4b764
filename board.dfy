/** The Othello board as a value: cell colours, the eight capture rays, the
    flip-direction mask, legality, the capture itself, and cell counting.
    These are the specification functions of the rules engine in
    othello/othello.c; the imperative routines in module Rules are proved
    against them. */
module Board {

  const Width: int := 8
  const Height: int := 8

  /** The colour of a cell (enum stone_color). Black is stone_black: no stone. */
  datatype Stone = Red | Green | Black

  /** The colour the source computes as `(c == stone_red) ? stone_green : stone_red`. */
  function Opp(c: Stone): Stone
  {
    if c == Red then Green else Red
  }

  /** A position on the board; g[y][x] is the cell in column x of row y. */
  datatype Pos = Pos(x: int, y: int)

  ghost predicate IsGrid(g: seq<seq<Stone>>)
  {
    |g| == Height && forall y | 0 <= y < Height :: |g[y]| == Width
  }

  /** An 8x8 board, indexed g[y][x] like brd[y][x] in the source. */
  type Grid = g: seq<seq<Stone>> | IsGrid(g) witness seq(8, _ => seq(8, _ => Black))

  /** Negation of is_out_of_board. */
  predicate InBoard(x: int, y: int)
  {
    0 <= x < Width && 0 <= y < Height
  }

  /** read_stone_at on a value. */
  function At(g: Grid, x: int, y: int): Stone
    requires InBoard(x, y)
  {
    g[y][x]
  }

  /** The board with cell (x, y) set to c (place; delete is SetCell(g, x, y, Black)). */
  function SetCell(g: Grid, x: int, y: int, c: Stone): (r: Grid)
    requires InBoard(x, y)
    ensures r[y][x] == c
    ensures forall yy, xx | InBoard(xx, yy) && (xx, yy) != (x, y) :: r[yy][xx] == g[yy][xx]
  {
    g[y := g[y][x := c]]
  }

  /** Two boards agreeing on every cell are equal. */
  lemma GridExt(g: Grid, h: Grid)
    requires forall y, x | InBoard(x, y) :: g[y][x] == h[y][x]
    ensures g == h
  {
    forall y | 0 <= y < 8
      ensures g[y] == h[y]
    {
      assert forall x | 0 <= x < 8 :: g[y][x] == h[y][x];
    }
  }

  function Min(a: int, b: int): int
  {
    if a < b then a else b
  }

  // ---------------------------------------------------------------------------
  // The eight directions (the DXDY table) and the cells along a ray

  /** DXDY[d][0] and DXDY[d][1]: up, down, left, right, up-left, down-left, up-right, down-right. */
  const DX: seq<int> := [0, 0, -1, 1, -1, -1, 1, 1]
  const DY: seq<int> := [1, -1, 0, 0, 1, -1, 1, -1]

  /** k * delta for delta in {-1, 0, 1}, written without multiplication. */
  function Offset(delta: int, k: int): int
  {
    if delta > 0 then k else if delta < 0 then -k else 0
  }

  /** Column and row of the cell k steps from (x, y) along direction d. */
  function RayX(x: int, d: int, k: int): int
    requires 0 <= d < 8
  {
    x + Offset(DX[d], k)
  }

  function RayY(y: int, d: int, k: int): int
    requires 0 <= d < 8
  {
    y + Offset(DY[d], k)
  }

  lemma RayStep(x: int, y: int, d: int, k: int)
    requires 0 <= d < 8
    ensures RayX(x, d, k) + DX[d] == RayX(x, d, k + 1)
    ensures RayY(y, d, k) + DY[d] == RayY(y, d, k + 1)
  {
  }

  /** Two cells at positive distances on rays from the same origin coincide only
      when they are the same step of the same direction. */
  lemma RaysDisjoint(x: int, y: int, d1: int, k1: int, d2: int, k2: int)
    requires 0 <= d1 < 8 && 0 <= d2 < 8 && 1 <= k1 && 1 <= k2
    requires RayX(x, d1, k1) == RayX(x, d2, k2) && RayY(y, d1, k1) == RayY(y, d2, k2)
    ensures d1 == d2 && k1 == k2
  {
    assert DX[d1] == DX[d2] && DY[d1] == DY[d2] by {
      if DX[d1] != DX[d2] || DY[d1] != DY[d2] {
        assert false;
      }
    }
    assert d1 == d2;
  }

  /** A ray never returns to its origin. */
  lemma RayLeavesOrigin(x: int, y: int, d: int, k: int)
    requires 0 <= d < 8 && 1 <= k
    ensures (RayX(x, d, k), RayY(y, d, k)) != (x, y)
  {
  }

  /** At most eight consecutive cells of a ray fit on the board. */
  lemma RayOnBoardSpan(x: int, y: int, d: int, j: int, k: int)
    requires 0 <= d < 8 && j < k
    requires InBoard(RayX(x, d, j), RayY(y, d, j)) && InBoard(RayX(x, d, k), RayY(y, d, k))
    ensures k - j < 8
  {
  }

  // ---------------------------------------------------------------------------
  // make_flip_dir_flag, stated on values

  /** The walk of make_flip_dir_flag along direction d from the cell (cx, cy) that
      iteration i starts from: true exactly when the walk sets bit d. */
  function Scan(g: Grid, cx: int, cy: int, d: int, c: Stone, i: nat): bool
    requires 0 <= d < 8
    decreases 8 - i
  {
    if i >= 8 then false
    else
      var nx := cx + DX[d];
      var ny := cy + DY[d];
      if !InBoard(nx, ny) then false
      else if g[ny][nx] == Black then false
      else if g[ny][nx] == c then i > 0
      else Scan(g, nx, ny, d, c, i + 1)
  }

  /** Placing c at (x, y) captures along direction d. */
  predicate Captures(g: Grid, x: int, y: int, c: Stone, d: int)
    requires 0 <= d < 8
  {
    Scan(g, x, y, d, c, 0)
  }

  /** The bit of direction d in a flip-direction mask, (1 << d). */
  function DirBit(d: int): bv8
    requires 0 <= d < 8
  {
    [1, 2, 4, 8, 16, 32, 64, 128][d]
  }

  lemma DirBitsDistinct(i: int, j: int)
    requires 0 <= i < 8 && 0 <= j < 8
    ensures DirBit(i) & DirBit(j) != 0 <==> i == j
  {
  }

  predicate HasDir(mask: bv8, d: int)
    requires 0 <= d < 8
  {
    mask & DirBit(d) != 0
  }

  /** The mask built from directions 0 .. n-1. */
  function MaskUpTo(g: Grid, x: int, y: int, c: Stone, n: int): bv8
    requires 0 <= n <= 8
  {
    if n == 0 then 0
    else MaskUpTo(g, x, y, c, n - 1) | (if Captures(g, x, y, c, n - 1) then DirBit(n - 1) else 0)
  }

  /** The value make_flip_dir_flag returns. */
  function FlipMask(g: Grid, x: int, y: int, c: Stone): bv8
  {
    MaskUpTo(g, x, y, c, 8)
  }

  lemma {:induction false} MaskUpToBits(g: Grid, x: int, y: int, c: Stone, n: int, d: int)
    requires 0 <= n <= 8 && 0 <= d < 8
    ensures HasDir(MaskUpTo(g, x, y, c, n), d) <==> d < n && Captures(g, x, y, c, d)
  {
    if n > 0 {
      MaskUpToBits(g, x, y, c, n - 1, d);
      var m := MaskUpTo(g, x, y, c, n - 1);
      var b: bv8 := if Captures(g, x, y, c, n - 1) then DirBit(n - 1) else 0;
      assert (m | b) & DirBit(d) == (m & DirBit(d)) | (b & DirBit(d));
      DirBitsDistinct(n - 1, d);
    }
  }

  /** Bit d of make_flip_dir_flag is set exactly when direction d captures. */
  lemma FlipMaskBits(g: Grid, x: int, y: int, c: Stone, d: int)
    requires 0 <= d < 8
    ensures HasDir(FlipMask(g, x, y, c), d) <==> Captures(g, x, y, c, d)
  {
    MaskUpToBits(g, x, y, c, 8, d);
  }

  lemma FlipMaskZero(g: Grid, x: int, y: int, c: Stone)
    ensures FlipMask(g, x, y, c) == 0 <==> forall d | 0 <= d < 8 :: !Captures(g, x, y, c, d)
  {
    forall d | 0 <= d < 8 {
      FlipMaskBits(g, x, y, c, d);
    }
    MaskEmpty(FlipMask(g, x, y, c));
  }

  /** A mask is zero exactly when none of its eight direction bits is set. */
  lemma MaskEmpty(m: bv8)
    ensures m == 0 <==> forall d | 0 <= d < 8 :: !HasDir(m, d)
  {
    assert DirBit(0) == 1 && DirBit(1) == 2 && DirBit(2) == 4 && DirBit(3) == 8;
    assert DirBit(4) == 16 && DirBit(5) == 32 && DirBit(6) == 64 && DirBit(7) == 128;
    if m != 0 {
      assert HasDir(m, 0) || HasDir(m, 1) || HasDir(m, 2) || HasDir(m, 3)
          || HasDir(m, 4) || HasDir(m, 5) || HasDir(m, 6) || HasDir(m, 7);
    }
  }

  // ---------------------------------------------------------------------------
  // The capture rule stated independently of the walk

  /** Cells 1 .. k-1 of direction d are on the board and hold stones of another colour than c. */
  ghost predicate OpponentRun(g: Grid, x: int, y: int, c: Stone, d: int, k: int)
    requires 0 <= d < 8
  {
    forall j | 1 <= j < k ::
      InBoard(RayX(x, d, j), RayY(y, d, j)) && g[RayY(y, d, j)][RayX(x, d, j)] != Black
      && g[RayY(y, d, j)][RayX(x, d, j)] != c
  }

  /** Direction d captures with the closing stone k steps away: one or more
      opponent stones, then a stone of colour c, all on the board. */
  ghost predicate CaptureAt(g: Grid, x: int, y: int, c: Stone, d: int, k: int)
    requires 0 <= d < 8
  {
    2 <= k && OpponentRun(g, x, y, c, d, k)
    && InBoard(RayX(x, d, k), RayY(y, d, k)) && g[RayY(y, d, k)][RayX(x, d, k)] == c
  }

  lemma {:induction false} ScanMeaning(g: Grid, x: int, y: int, c: Stone, d: int, i: nat)
    requires 0 <= d < 8 && c != Black
    requires OpponentRun(g, x, y, c, d, i + 1)
    ensures Scan(g, RayX(x, d, i), RayY(y, d, i), d, c, i)
            <==> exists k :: i < k && CaptureAt(g, x, y, c, d, k)
    decreases 8 - i
  {
    RayStep(x, y, d, i);
    var nx, ny := RayX(x, d, i + 1), RayY(y, d, i + 1);
    if i >= 8 {
      if exists k :: i < k && CaptureAt(g, x, y, c, d, k) {
        var k :| i < k && CaptureAt(g, x, y, c, d, k);
        RayOnBoardSpan(x, y, d, 1, k);
        assert false;
      }
    } else if !InBoard(nx, ny) || g[ny][nx] == Black {
      NoCaptureAfterGap(g, x, y, c, d, i);
    } else if g[ny][nx] == c {
      if i > 0 {
        assert CaptureAt(g, x, y, c, d, i + 1);
      }
    } else {
      assert OpponentRun(g, x, y, c, d, i + 2);
      ScanMeaning(g, x, y, c, d, i + 1);
      if exists k :: i < k && CaptureAt(g, x, y, c, d, k) {
        var k :| i < k && CaptureAt(g, x, y, c, d, k);
        assert k != i + 1;
      }
    }
  }

  /** A ray whose (i+1)-th cell is off the board or empty closes no capture beyond i. */
  lemma NoCaptureAfterGap(g: Grid, x: int, y: int, c: Stone, d: int, i: nat)
    requires 0 <= d < 8 && c != Black
    requires !InBoard(RayX(x, d, i + 1), RayY(y, d, i + 1)) || g[RayY(y, d, i + 1)][RayX(x, d, i + 1)] == Black
    ensures forall k | i < k :: !CaptureAt(g, x, y, c, d, k)
  {
    forall k | i < k
      ensures !CaptureAt(g, x, y, c, d, k)
    {
      if i + 1 < k {
        assert !OpponentRun(g, x, y, c, d, k) by {
          assert 1 <= i + 1 < k;
        }
      }
    }
  }

  /** make_flip_dir_flag's bit d is set exactly when walking from (x, y) along
      direction d meets one or more stones of the other colour and then a stone of
      colour c, all on the board. */
  lemma CapturesMeaning(g: Grid, x: int, y: int, c: Stone, d: int)
    requires 0 <= d < 8 && c != Black
    ensures HasDir(FlipMask(g, x, y, c), d) <==> exists k :: CaptureAt(g, x, y, c, d, k)
  {
    FlipMaskBits(g, x, y, c, d);
    ScanMeaning(g, x, y, c, d, 0);
  }

  /** The empty colour never captures, so make_flip_dir_flag gives 0 for it. */
  lemma {:induction false} ScanEmptyColour(g: Grid, cx: int, cy: int, d: int, c: Stone, i: nat)
    requires 0 <= d < 8
    ensures Scan(g, cx, cy, d, c, i) ==> c != Black
    decreases 8 - i
  {
    if i < 8 && InBoard(cx + DX[d], cy + DY[d]) {
      ScanEmptyColour(g, cx + DX[d], cy + DY[d], d, c, i + 1);
    }
  }

  /** Only a real colour can capture. */
  lemma CapturesColour(g: Grid, x: int, y: int, c: Stone, d: int)
    requires 0 <= d < 8 && Captures(g, x, y, c, d)
    ensures c != Black
  {
    ScanEmptyColour(g, x, y, d, c, 0);
  }

  /** Direction d captures exactly when some cell closes a run of opponent stones. */
  lemma CapturesIff(g: Grid, x: int, y: int, c: Stone, d: int)
    requires 0 <= d < 8 && c != Black
    ensures Captures(g, x, y, c, d) <==> exists k :: CaptureAt(g, x, y, c, d, k)
  {
    ScanMeaning(g, x, y, c, d, 0);
  }

  /** The closing stone of a capturing ray is unique. */
  lemma CaptureAtUnique(g: Grid, x: int, y: int, c: Stone, d: int, k1: int, k2: int)
    requires 0 <= d < 8
    requires CaptureAt(g, x, y, c, d, k1) && CaptureAt(g, x, y, c, d, k2)
    ensures k1 == k2
  {
  }

  // ---------------------------------------------------------------------------
  // is_placeable

  /** is_placeable: the cell is empty and at least one direction captures. */
  predicate Placeable(g: Grid, x: int, y: int, c: Stone)
    requires InBoard(x, y)
  {
    g[y][x] == Black && FlipMask(g, x, y, c) != 0
  }

  /** A cell is placeable exactly when it is empty and some direction captures. */
  lemma PlaceableMeaning(g: Grid, x: int, y: int, c: Stone)
    requires InBoard(x, y) && c != Black
    ensures Placeable(g, x, y, c)
            <==> g[y][x] == Black && exists d, k :: 0 <= d < 8 && CaptureAt(g, x, y, c, d, k)
  {
    FlipMaskZero(g, x, y, c);
    if Placeable(g, x, y, c) {
      var d :| 0 <= d < 8 && Captures(g, x, y, c, d);
      CapturesIff(g, x, y, c, d);
      var k :| CaptureAt(g, x, y, c, d, k);
    }
    if g[y][x] == Black && exists d, k :: 0 <= d < 8 && CaptureAt(g, x, y, c, d, k) {
      var d, k :| 0 <= d < 8 && CaptureAt(g, x, y, c, d, k);
      CapturesIff(g, x, y, c, d);
    }
  }

  // ---------------------------------------------------------------------------
  // flip_stones, stated cell by cell

  /** Cell (cx, cy) is k >= 1 steps along direction d, which captures, and every
      cell up to it holds an opponent stone: the cells the walk of flip_stones turns. */
  ghost predicate OnFlippedRay(g: Grid, x: int, y: int, c: Stone, d: int, cx: int, cy: int)
    requires 0 <= d < 8
  {
    Captures(g, x, y, c, d)
    && exists k :: 1 <= k && OpponentRun(g, x, y, c, d, k + 1) && cx == RayX(x, d, k) && cy == RayY(y, d, k)
  }

  /** Cell (cx, cy) lies strictly between (x, y) and the closing stone of direction d. */
  ghost predicate BetweenCapture(g: Grid, x: int, y: int, c: Stone, d: int, cx: int, cy: int)
    requires 0 <= d < 8
  {
    exists k, e :: 1 <= k < e && CaptureAt(g, x, y, c, d, e) && cx == RayX(x, d, k) && cy == RayY(y, d, k)
  }

  lemma OnFlippedRayMeaning(g: Grid, x: int, y: int, c: Stone, d: int, cx: int, cy: int)
    requires 0 <= d < 8 && c != Black
    ensures OnFlippedRay(g, x, y, c, d, cx, cy) <==> BetweenCapture(g, x, y, c, d, cx, cy)
  {
    CapturesIff(g, x, y, c, d);
    if OnFlippedRay(g, x, y, c, d, cx, cy) {
      var k :| 1 <= k && OpponentRun(g, x, y, c, d, k + 1) && cx == RayX(x, d, k) && cy == RayY(y, d, k);
      var e :| CaptureAt(g, x, y, c, d, e);
      assert 1 <= k < e && CaptureAt(g, x, y, c, d, e);
    }
    if BetweenCapture(g, x, y, c, d, cx, cy) {
      var k, e :| 1 <= k < e && CaptureAt(g, x, y, c, d, e) && cx == RayX(x, d, k) && cy == RayY(y, d, k);
      assert OpponentRun(g, x, y, c, d, k + 1);
    }
  }

  /** Cell (cx, cy) is turned by one of the directions 0 .. n-1 flagged in mask. */
  ghost predicate FlipsCell(g: Grid, mask: bv8, x: int, y: int, c: Stone, n: int, cx: int, cy: int)
  {
    exists d :: 0 <= d < n && d < 8 && HasDir(mask, d) && OnFlippedRay(g, x, y, c, d, cx, cy)
  }

  /** The board after flip_stones has handled directions 0 .. n-1. */
  ghost function FlippedUpTo(g: Grid, mask: bv8, x: int, y: int, c: Stone, n: int): (r: Grid)
    ensures forall cy, cx | InBoard(cx, cy) ::
      r[cy][cx] == if FlipsCell(g, mask, x, y, c, n, cx, cy) then c else g[cy][cx]
  {
    seq(8, cy requires 0 <= cy < 8 =>
      seq(8, cx requires 0 <= cx < 8 =>
        if FlipsCell(g, mask, x, y, c, n, cx, cy) then c else g[cy][cx]))
  }

  /** The board flip_stones leaves behind. */
  ghost function Flipped(g: Grid, mask: bv8, x: int, y: int, c: Stone): Grid
  {
    FlippedUpTo(g, mask, x, y, c, 8)
  }

  /** A mask whose bits are all capturing directions (such as FlipMask itself). */
  predicate MaskWithin(g: Grid, mask: bv8, x: int, y: int, c: Stone)
  {
    mask & FlipMask(g, x, y, c) == mask
  }

  lemma MaskWithinBits(g: Grid, mask: bv8, x: int, y: int, c: Stone, d: int)
    requires MaskWithin(g, mask, x, y, c) && 0 <= d < 8 && HasDir(mask, d)
    ensures Captures(g, x, y, c, d)
  {
    FlipMaskBits(g, x, y, c, d);
    assert mask & DirBit(d) == (mask & FlipMask(g, x, y, c)) & DirBit(d);
  }

  /** flip_stones turns into c exactly the cells lying strictly between (x, y) and
      the closing stone of a flagged capturing direction; every other cell, (x, y)
      included, keeps its colour. */
  lemma FlippedMeaning(g: Grid, mask: bv8, x: int, y: int, c: Stone, cx: int, cy: int)
    requires InBoard(cx, cy) && c != Black
    ensures Flipped(g, mask, x, y, c)[cy][cx]
            == if exists d :: 0 <= d < 8 && HasDir(mask, d) && BetweenCapture(g, x, y, c, d, cx, cy)
               then c else g[cy][cx]
    ensures InBoard(x, y) ==> Flipped(g, mask, x, y, c)[y][x] == g[y][x]
  {
    forall d | 0 <= d < 8
      ensures OnFlippedRay(g, x, y, c, d, cx, cy) <==> BetweenCapture(g, x, y, c, d, cx, cy)
    {
      OnFlippedRayMeaning(g, x, y, c, d, cx, cy);
    }
    if InBoard(x, y) && FlipsCell(g, mask, x, y, c, 8, x, y) {
      var d :| 0 <= d < 8 && HasDir(mask, d) && OnFlippedRay(g, x, y, c, d, x, y);
      var k :| 1 <= k && OpponentRun(g, x, y, c, d, k + 1) && x == RayX(x, d, k) && y == RayY(y, d, k);
      RayLeavesOrigin(x, y, d, k);
    }
  }

  /** Every cell flip_stones changes held a stone of the opponent colour and now holds c. */
  lemma FlippedChanges(g: Grid, mask: bv8, x: int, y: int, c: Stone, n: int, cx: int, cy: int)
    requires InBoard(cx, cy) && (c == Red || c == Green)
    ensures var r := FlippedUpTo(g, mask, x, y, c, n);
            r[cy][cx] == g[cy][cx] || (g[cy][cx] == Opp(c) && r[cy][cx] == c)
  {
    if FlipsCell(g, mask, x, y, c, n, cx, cy) {
      var d :| 0 <= d < n && d < 8 && HasDir(mask, d) && OnFlippedRay(g, x, y, c, d, cx, cy);
      var k :| 1 <= k && OpponentRun(g, x, y, c, d, k + 1) && cx == RayX(x, d, k) && cy == RayY(y, d, k);
      assert g[RayY(y, d, k)][RayX(x, d, k)] != Black && g[RayY(y, d, k)][RayX(x, d, k)] != c;
    }
  }

  // ---------------------------------------------------------------------------
  // What the cell of the move itself does not influence

  /** g and h agree on every cell except possibly (x, y). */
  ghost predicate AgreeOff(g: Grid, h: Grid, x: int, y: int)
  {
    forall cx, cy | InBoard(cx, cy) && (cx, cy) != (x, y) :: g[cy][cx] == h[cy][cx]
  }

  /** The walk of make_flip_dir_flag never reads the cell it starts from. */
  lemma {:induction false} ScanOffOrigin(g: Grid, h: Grid, x: int, y: int, d: int, c: Stone, i: nat)
    requires 0 <= d < 8 && AgreeOff(g, h, x, y)
    ensures Scan(g, RayX(x, d, i), RayY(y, d, i), d, c, i) == Scan(h, RayX(x, d, i), RayY(y, d, i), d, c, i)
    decreases 8 - i
  {
    if i < 8 {
      RayStep(x, y, d, i);
      RayLeavesOrigin(x, y, d, i + 1);
      ScanOffOrigin(g, h, x, y, d, c, i + 1);
    }
  }

  lemma {:induction false} MaskOffOrigin(g: Grid, h: Grid, x: int, y: int, c: Stone, n: int)
    requires 0 <= n <= 8 && AgreeOff(g, h, x, y)
    ensures MaskUpTo(g, x, y, c, n) == MaskUpTo(h, x, y, c, n)
  {
    if n > 0 {
      MaskOffOrigin(g, h, x, y, c, n - 1);
      CapturesOffOrigin(g, h, x, y, c, n - 1);
    }
  }

  lemma CapturesOffOrigin(g: Grid, h: Grid, x: int, y: int, c: Stone, d: int)
    requires 0 <= d < 8 && AgreeOff(g, h, x, y)
    ensures Captures(g, x, y, c, d) == Captures(h, x, y, c, d)
  {
    ScanOffOrigin(g, h, x, y, d, c, 0);
    assert RayX(x, d, 0) == x && RayY(y, d, 0) == y;
  }

  /** make_flip_dir_flag gives the same mask whatever the cell (x, y) holds. */
  lemma FlipMaskOffOrigin(g: Grid, h: Grid, x: int, y: int, c: Stone)
    requires AgreeOff(g, h, x, y)
    ensures FlipMask(g, x, y, c) == FlipMask(h, x, y, c)
  {
    MaskOffOrigin(g, h, x, y, c, 8);
  }

  /** Whether a ray captures does not depend on the cell (x, y). */
  lemma CaptureAtOffOrigin(g: Grid, h: Grid, x: int, y: int, c: Stone, d: int, e: int)
    requires 0 <= d < 8 && AgreeOff(g, h, x, y)
    ensures CaptureAt(g, x, y, c, d, e) <==> CaptureAt(h, x, y, c, d, e)
  {
    forall j | 1 <= j
      ensures (RayX(x, d, j), RayY(y, d, j)) != (x, y)
    {
      RayLeavesOrigin(x, y, d, j);
    }
  }

  // ---------------------------------------------------------------------------
  // Counting cells: column-major (x outer, as count_placeable and count_stones
  // scan) and row-major (y outer, as the move lists and evaluators scan)

  /** Cells in column x with row < h that satisfy p. */
  function ColCount(p: (int, int) -> bool, x: int, h: int): (n: nat)
    requires 0 <= h <= 8
    ensures n <= h
  {
    if h == 0 then 0 else ColCount(p, x, h - 1) + (if p(x, h - 1) then 1 else 0)
  }

  /** Cells with column < w and row < h that satisfy p, summed column by column. */
  function ColSum(p: (int, int) -> bool, w: int, h: int): (n: nat)
    requires 0 <= w <= 8 && 0 <= h <= 8
  {
    if w == 0 then 0 else ColSum(p, w - 1, h) + ColCount(p, w - 1, h)
  }

  /** Cells in row y with column < w that satisfy p. */
  function RowCount(p: (int, int) -> bool, y: int, w: int): (n: nat)
    requires 0 <= w <= 8
    ensures n <= w
  {
    if w == 0 then 0 else RowCount(p, y, w - 1) + (if p(w - 1, y) then 1 else 0)
  }

  /** Cells with row < h and column < w that satisfy p, summed row by row. */
  function RowSum(p: (int, int) -> bool, h: int, w: int): (n: nat)
    requires 0 <= w <= 8 && 0 <= h <= 8
  {
    if h == 0 then 0 else RowSum(p, h - 1, w) + RowCount(p, h - 1, w)
  }

  lemma {:induction false} RowSumAddColumn(p: (int, int) -> bool, h: int, w: int)
    requires 0 <= h <= 8 && 0 <= w < 8
    ensures RowSum(p, h, w + 1) == RowSum(p, h, w) + ColCount(p, w, h)
  {
    if h > 0 {
      RowSumAddColumn(p, h - 1, w);
    }
  }

  /** Summing by columns and by rows counts the same cells. */
  lemma {:induction false} ColSumIsRowSum(p: (int, int) -> bool, w: int, h: int)
    requires 0 <= w <= 8 && 0 <= h <= 8
    ensures ColSum(p, w, h) == RowSum(p, h, w)
  {
    if w > 0 {
      ColSumIsRowSum(p, w - 1, h);
      RowSumAddColumn(p, h, w - 1);
    } else {
      RowSumZero(p, h);
    }
  }

  lemma {:induction false} RowSumZero(p: (int, int) -> bool, h: int)
    requires 0 <= h <= 8
    ensures RowSum(p, h, 0) == 0
  {
    if h > 0 {
      RowSumZero(p, h - 1);
    }
  }

  lemma {:induction false} ColSumBound(p: (int, int) -> bool, w: int, h: int)
    requires 0 <= w <= 8 && 0 <= h <= 8
    ensures ColSum(p, w, h) <= 8 * w
  {
    if w > 0 {
      ColSumBound(p, w - 1, h);
    }
  }

  /** On every cell, p holds exactly when one of q and r holds, and not both. */
  ghost predicate Splits(p: (int, int) -> bool, q: (int, int) -> bool, r: (int, int) -> bool)
  {
    forall x, y | 0 <= x < 8 && 0 <= y < 8 ::
      (if p(x, y) then 1 else 0) == (if q(x, y) then 1 else 0) + (if r(x, y) then 1 else 0)
  }

  /** Pointwise p = q + r (as 0/1 counts) gives ColSum(p) = ColSum(q) + ColSum(r). */
  lemma {:induction false} ColSumAdd(p: (int, int) -> bool, q: (int, int) -> bool, r: (int, int) -> bool, w: int, h: int)
    requires 0 <= w <= 8 && 0 <= h <= 8 && Splits(p, q, r)
    ensures ColSum(p, w, h) == ColSum(q, w, h) + ColSum(r, w, h)
  {
    if w > 0 {
      ColSumAdd(p, q, r, w - 1, h);
      ColCountAdd(p, q, r, w - 1, h);
    }
  }

  lemma {:induction false} ColCountAdd(p: (int, int) -> bool, q: (int, int) -> bool, r: (int, int) -> bool, x: int, h: int)
    requires 0 <= h <= 8 && 0 <= x < 8 && Splits(p, q, r)
    ensures ColCount(p, x, h) == ColCount(q, x, h) + ColCount(r, x, h)
  {
    if h > 0 {
      ColCountAdd(p, q, r, x, h - 1);
    }
  }

  /** A satisfied cell makes the count positive. */
  lemma {:induction false} ColSumPositive(p: (int, int) -> bool, w: int, h: int, x: int, y: int)
    requires 0 <= w <= 8 && 0 <= h <= 8 && 0 <= x < w && 0 <= y < h && p(x, y)
    ensures ColSum(p, w, h) > 0
  {
    if x < w - 1 {
      ColSumPositive(p, w - 1, h, x, y);
    } else {
      ColCountPositive(p, x, h, y);
    }
  }

  lemma {:induction false} ColCountPositive(p: (int, int) -> bool, x: int, h: int, y: int)
    requires 0 <= h <= 8 && 0 <= y < h && p(x, y)
    ensures ColCount(p, x, h) > 0
  {
    if y < h - 1 {
      ColCountPositive(p, x, h - 1, y);
    }
  }

  /** A count of zero means no cell is satisfied. */
  lemma {:induction false} ColSumZero(p: (int, int) -> bool, w: int, h: int)
    requires 0 <= w <= 8 && 0 <= h <= 8 && ColSum(p, w, h) == 0
    ensures forall x, y | 0 <= x < w && 0 <= y < h :: !p(x, y)
  {
    forall x, y | 0 <= x < w && 0 <= y < h
      ensures !p(x, y)
    {
      if p(x, y) {
        ColSumPositive(p, w, h, x, y);
      }
    }
  }

  /** is_game_over: neither colour has a legal move. */
  predicate IsGameOver(count1: int, count2: int)
  {
    count1 == 0 && count2 == 0
  }

  /** Cells holding colour c. */
  function StoneAt(g: Grid, c: Stone): (int, int) -> bool
  {
    (x: int, y: int) => InBoard(x, y) && g[y][x] == c
  }

  /** Empty cells where c may be placed. */
  function PlaceableAt(g: Grid, c: Stone): (int, int) -> bool
  {
    (x: int, y: int) => InBoard(x, y) && Placeable(g, x, y, c)
  }

  /** Cells in which two boards differ. */
  function DiffersAt(g: Grid, h: Grid): (int, int) -> bool
  {
    (x: int, y: int) => InBoard(x, y) && g[y][x] != h[y][x]
  }

  /** The value count_stones returns. */
  function StoneCount(g: Grid, c: Stone): nat
  {
    ColSum(StoneAt(g, c), 8, 8)
  }

  /** The value count_placeable returns. */
  function PlaceableCount(g: Grid, c: Stone): nat
  {
    ColSum(PlaceableAt(g, c), 8, 8)
  }

  /** The number of cells in which g and h differ. */
  function DiffCount(g: Grid, h: Grid): nat
  {
    ColSum(DiffersAt(g, h), 8, 8)
  }

  /** The red and green stones never exceed the 64 cells. */
  lemma StonesFitBoard(g: Grid)
    ensures StoneCount(g, Red) + StoneCount(g, Green) <= 64
  {
    var occupied := (x: int, y: int) => InBoard(x, y) && g[y][x] != Black;
    assert Splits(occupied, StoneAt(g, Red), StoneAt(g, Green));
    ColSumAdd(occupied, StoneAt(g, Red), StoneAt(g, Green), 8, 8);
    ColSumBound(occupied, 8, 8);
  }

  /** Stone conservation: when every cell either keeps its colour or changes from
      the opponent colour to c, c gains and the opponent loses one stone per changed cell. */
  lemma CountsAfterCapture(g: Grid, h: Grid, c: Stone)
    requires c == Red || c == Green
    requires forall x, y | InBoard(x, y) :: h[y][x] == g[y][x] || (g[y][x] == Opp(c) && h[y][x] == c)
    ensures StoneCount(h, c) == StoneCount(g, c) + DiffCount(g, h)
    ensures StoneCount(h, Opp(c)) + DiffCount(g, h) == StoneCount(g, Opp(c))
  {
    assert Splits(StoneAt(h, c), StoneAt(g, c), DiffersAt(g, h));
    ColSumAdd(StoneAt(h, c), StoneAt(g, c), DiffersAt(g, h), 8, 8);
    assert Splits(StoneAt(g, Opp(c)), StoneAt(h, Opp(c)), DiffersAt(g, h));
    ColSumAdd(StoneAt(g, Opp(c)), StoneAt(h, Opp(c)), DiffersAt(g, h), 8, 8);
  }

  /** Filling one empty cell with c raises c's count by one and leaves Opp(c)'s unchanged. */
  lemma CountsAfterPlace(g: Grid, x: int, y: int, c: Stone)
    requires InBoard(x, y) && g[y][x] == Black && (c == Red || c == Green)
    ensures StoneCount(SetCell(g, x, y, c), c) == StoneCount(g, c) + 1
    ensures StoneCount(SetCell(g, x, y, c), Opp(c)) == StoneCount(g, Opp(c))
  {
    var h := SetCell(g, x, y, c);
    PlacePointwise(g, h, x, y, c);
    assert StoneCount(h, c) == StoneCount(g, c) + 1 by {
      ColSumAdd(StoneAt(h, c), StoneAt(g, c), IsCell(x, y), 8, 8);
      ColSumSingle(x, y, 8, 8);
    }
    assert StoneCount(h, Opp(c)) == StoneCount(g, Opp(c)) by {
      ColSumSame(StoneAt(h, Opp(c)), StoneAt(g, Opp(c)), 8, 8);
    }
  }

  lemma PlacePointwise(g: Grid, h: Grid, x: int, y: int, c: Stone)
    requires InBoard(x, y) && g[y][x] == Black && (c == Red || c == Green) && h == SetCell(g, x, y, c)
    ensures Splits(StoneAt(h, c), StoneAt(g, c), IsCell(x, y))
    ensures SameCells(StoneAt(h, Opp(c)), StoneAt(g, Opp(c)))
  {
  }

  function IsCell(x: int, y: int): (int, int) -> bool
  {
    (xx: int, yy: int) => xx == x && yy == y
  }

  /** p and q agree on every cell. */
  ghost predicate SameCells(p: (int, int) -> bool, q: (int, int) -> bool)
  {
    forall x, y | 0 <= x < 8 && 0 <= y < 8 :: p(x, y) == q(x, y)
  }

  lemma {:induction false} ColSumSame(p: (int, int) -> bool, q: (int, int) -> bool, w: int, h: int)
    requires 0 <= w <= 8 && 0 <= h <= 8 && SameCells(p, q)
    ensures ColSum(p, w, h) == ColSum(q, w, h)
  {
    if w > 0 {
      ColSumSame(p, q, w - 1, h);
      ColCountSame(p, q, w - 1, h);
    }
  }

  lemma {:induction false} ColCountSame(p: (int, int) -> bool, q: (int, int) -> bool, x: int, h: int)
    requires 0 <= x < 8 && 0 <= h <= 8 && SameCells(p, q)
    ensures ColCount(p, x, h) == ColCount(q, x, h)
  {
    if h > 0 {
      ColCountSame(p, q, x, h - 1);
    }
  }

  lemma {:induction false} ColSumSingle(x: int, y: int, w: int, h: int)
    requires 0 <= x < w <= 8 && 0 <= y < h <= 8
    ensures ColSum(IsCell(x, y), w, h) == 1
  {
    if w - 1 > x {
      ColSumSingle(x, y, w - 1, h);
      ColCountNone(IsCell(x, y), w - 1, h);
    } else {
      ColSumNoneBefore(IsCell(x, y), x, h);
      ColCountSingle(x, y, h);
    }
  }

  lemma {:induction false} ColCountNone(p: (int, int) -> bool, x: int, h: int)
    requires 0 <= h <= 8 && forall y | 0 <= y < h :: !p(x, y)
    ensures ColCount(p, x, h) == 0
  {
    if h > 0 {
      ColCountNone(p, x, h - 1);
    }
  }

  lemma {:induction false} ColSumNoneBefore(p: (int, int) -> bool, w: int, h: int)
    requires 0 <= w <= 8 && 0 <= h <= 8
    requires forall xx, yy | 0 <= xx < w && 0 <= yy < h :: !p(xx, yy)
    ensures ColSum(p, w, h) == 0
  {
    if w > 0 {
      ColSumNoneBefore(p, w - 1, h);
      ColCountNone(p, w - 1, h);
    }
  }

  lemma {:induction false} ColCountSingle(x: int, y: int, h: int)
    requires 0 <= y < h <= 8
    ensures ColCount(IsCell(x, y), x, h) == 1
  {
    if h - 1 > y {
      ColCountSingle(x, y, h - 1);
    } else {
      ColCountNone(IsCell(x, y), x, h - 1);
    }
  }

  // ---------------------------------------------------------------------------
  // Legal-move lists, built row by row (y outer, x inner)

  /** Placeable cells of row y with column < w, in increasing column order. */
  function LegalRow(g: Grid, c: Stone, y: int, w: int): (ms: seq<Pos>)
    requires 0 <= y < 8 && 0 <= w <= 8
  {
    if w == 0 then []
    else LegalRow(g, c, y, w - 1) + (if Placeable(g, w - 1, y, c) then [Pos(w - 1, y)] else [])
  }

  /** Placeable cells of rows < h, row by row. */
  function LegalRows(g: Grid, c: Stone, h: int): (ms: seq<Pos>)
    requires 0 <= h <= 8
  {
    if h == 0 then [] else LegalRows(g, c, h - 1) + LegalRow(g, c, h - 1, 8)
  }

  /** Every legal move for c, in the order the search lists them. */
  function LegalMoves(g: Grid, c: Stone): seq<Pos>
  {
    LegalRows(g, c, 8)
  }

  lemma LegalRowFacts(g: Grid, c: Stone, y: int, w: int)
    requires 0 <= y < 8 && 0 <= w <= 8
    ensures |LegalRow(g, c, y, w)| == RowCount(PlaceableAt(g, c), y, w)
    ensures forall m | m in LegalRow(g, c, y, w) :: m.y == y && 0 <= m.x < w && Placeable(g, m.x, m.y, c)
    ensures forall x | 0 <= x < w && Placeable(g, x, y, c) :: Pos(x, y) in LegalRow(g, c, y, w)
  {
    LegalRowCount(g, c, y, w);
    LegalRowSound(g, c, y, w);
    LegalRowComplete(g, c, y, w);
  }

  lemma {:induction false} LegalRowCount(g: Grid, c: Stone, y: int, w: int)
    requires 0 <= y < 8 && 0 <= w <= 8
    ensures |LegalRow(g, c, y, w)| == RowCount(PlaceableAt(g, c), y, w)
  {
    if w > 0 {
      LegalRowCount(g, c, y, w - 1);
    }
  }

  lemma {:induction false} LegalRowSound(g: Grid, c: Stone, y: int, w: int)
    requires 0 <= y < 8 && 0 <= w <= 8
    ensures forall m | m in LegalRow(g, c, y, w) :: m.y == y && 0 <= m.x < w && Placeable(g, m.x, m.y, c)
  {
    if w > 0 {
      LegalRowSound(g, c, y, w - 1);
    }
  }

  lemma {:induction false} LegalRowComplete(g: Grid, c: Stone, y: int, w: int)
    requires 0 <= y < 8 && 0 <= w <= 8
    ensures forall x | 0 <= x < w && Placeable(g, x, y, c) :: Pos(x, y) in LegalRow(g, c, y, w)
  {
    if w > 0 {
      LegalRowComplete(g, c, y, w - 1);
    }
  }

  lemma {:induction false} LegalRowsCount(g: Grid, c: Stone, h: int)
    requires 0 <= h <= 8
    ensures |LegalRows(g, c, h)| == RowSum(PlaceableAt(g, c), h, 8)
  {
    if h > 0 {
      LegalRowsCount(g, c, h - 1);
      LegalRowFacts(g, c, h - 1, 8);
    }
  }

  lemma {:induction false} LegalRowsSound(g: Grid, c: Stone, h: int)
    requires 0 <= h <= 8
    ensures forall m | m in LegalRows(g, c, h) :: InBoard(m.x, m.y) && m.y < h && Placeable(g, m.x, m.y, c)
  {
    if h > 0 {
      LegalRowsSound(g, c, h - 1);
      LegalRowFacts(g, c, h - 1, 8);
    }
  }

  lemma {:induction false} LegalRowsComplete(g: Grid, c: Stone, h: int)
    requires 0 <= h <= 8
    ensures forall x, y | 0 <= x < 8 && 0 <= y < h && Placeable(g, x, y, c) :: Pos(x, y) in LegalRows(g, c, h)
  {
    if h > 0 {
      LegalRowsComplete(g, c, h - 1);
      LegalRowFacts(g, c, h - 1, 8);
    }
  }

  /** The move list holds exactly the placeable cells, and its length is what
      count_placeable returns, although count_placeable scans columns first. */
  lemma LegalMovesFacts(g: Grid, c: Stone)
    ensures |LegalMoves(g, c)| == PlaceableCount(g, c)
    ensures forall m | m in LegalMoves(g, c) :: InBoard(m.x, m.y) && Placeable(g, m.x, m.y, c)
    ensures forall x, y | InBoard(x, y) && Placeable(g, x, y, c) :: Pos(x, y) in LegalMoves(g, c)
  {
    LegalRowsCount(g, c, 8);
    LegalRowsSound(g, c, 8);
    LegalRowsComplete(g, c, 8);
    ColSumIsRowSum(PlaceableAt(g, c), 8, 8);
  }

  /** Every listed move is a cell of the board. */
  lemma LegalMovesOnBoard(g: Grid, c: Stone)
    ensures forall m | m in LegalMoves(g, c) :: InBoard(m.x, m.y)
  {
    LegalMovesFacts(g, c);
  }

  lemma LegalMovesBound(g: Grid, c: Stone)
    ensures |LegalMoves(g, c)| <= 64
  {
    LegalMovesFacts(g, c);
    ColSumBound(PlaceableAt(g, c), 8, 8);
  }

  // ---------------------------------------------------------------------------
  // Boards written by init_board and line_up_result

  function EmptyGrid(): (r: Grid)
    ensures forall y, x | InBoard(x, y) :: r[y][x] == Black
  {
    seq(8, _ => seq(8, _ => Black))
  }

  /** init_board: empty except red at (3,3) and (4,4), green at (3,4) and (4,3). */
  function InitialGrid(): Grid
  {
    SetCell(SetCell(SetCell(SetCell(EmptyGrid(), 3, 3, Red), 4, 4, Red), 3, 4, Green), 4, 3, Green)
  }

  /** The k-th cell line_up_result fills: column k % 8 of row 7 - k / 8. */
  function LineUpIndex(x: int, y: int): int
  {
    (7 - y) * 8 + x
  }

  /** line_up_result's final board: the first r cells red, the next g green, the rest empty. */
  function LineUpGrid(r: nat, gr: nat): (res: Grid)
    requires r + gr <= 64
  {
    seq(8, y requires 0 <= y < 8 => seq(8, x requires 0 <= x < 8 =>
      if LineUpIndex(x, y) < r then Red
      else if LineUpIndex(x, y) < r + gr then Green
      else Black))
  }

  lemma LineUpCells(r: nat, gr: nat)
    requires r + gr <= 64
    ensures FillsRange(LineUpGrid(r, gr), Red, 0, r)
    ensures FillsRange(LineUpGrid(r, gr), Green, r, r + gr)
  {
  }

  /** The lined-up board holds exactly r red and gr green stones. */
  lemma LineUpCounts(r: nat, gr: nat)
    requires r + gr <= 64
    ensures StoneCount(LineUpGrid(r, gr), Red) == r
    ensures StoneCount(LineUpGrid(r, gr), Green) == gr
  {
    LineUpCells(r, gr);
    CountOfRange(LineUpGrid(r, gr), Red, 0, r);
    CountOfRange(LineUpGrid(r, gr), Green, r, r + gr);
  }

  /** A colour filling the line-up indices lo .. hi-1 has hi - lo stones. */
  lemma CountOfRange(b: Grid, c: Stone, lo: int, hi: int)
    requires 0 <= lo <= hi <= 64 && FillsRange(b, c, lo, hi)
    ensures StoneCount(b, c) == hi - lo
  {
    RowsAsRange(b, c, lo, hi, 8);
    ColSumIsRowSum(StoneAt(b, c), 8, 8);
  }

  /** Colour c occupies exactly the cells whose line-up index is in lo .. hi-1. */
  ghost predicate FillsRange(b: Grid, c: Stone, lo: int, hi: int)
  {
    forall x, y | InBoard(x, y) :: (b[y][x] == c) == (lo <= LineUpIndex(x, y) < hi)
  }

  /** How many of the indices lo .. hi-1 lie in a .. b-1. */
  function Overlap(lo: int, hi: int, a: int, b: int): int
  {
    var top := if hi < b then hi else b;
    var bottom := if lo < a then a else lo;
    if top < bottom then 0 else top - bottom
  }

  /** When colour c fills exactly the indices lo .. hi-1, rows 0 .. h-1 (indices
      8 * (8 - h) .. 63) hold as many c stones as the overlap. */
  lemma {:induction false} RowsAsRange(b: Grid, c: Stone, lo: int, hi: int, h: int)
    requires 0 <= lo <= hi && 0 <= h <= 8
    requires FillsRange(b, c, lo, hi)
    ensures RowSum(StoneAt(b, c), h, 8) == Overlap(lo, hi, 8 * (8 - h), 64)
  {
    if h > 0 {
      RowsAsRange(b, c, lo, hi, h - 1);
      RowAsRange(b, c, lo, hi, h - 1, 8);
    }
  }

  lemma {:induction false} RowAsRange(b: Grid, c: Stone, lo: int, hi: int, y: int, w: int)
    requires 0 <= lo <= hi && 0 <= y < 8 && 0 <= w <= 8
    requires FillsRange(b, c, lo, hi)
    ensures RowCount(StoneAt(b, c), y, w) == Overlap(lo, hi, (7 - y) * 8, (7 - y) * 8 + w)
  {
    if w > 0 {
      RowAsRange(b, c, lo, hi, y, w - 1);
    }
  }

  /** is_game_over on the two placeable counts holds exactly when no empty cell
      accepts a stone of either colour. */
  lemma GameOverMeaning(g: Grid)
    ensures IsGameOver(PlaceableCount(g, Red), PlaceableCount(g, Green))
            <==> forall x, y | InBoard(x, y) :: !Placeable(g, x, y, Red) && !Placeable(g, x, y, Green)
  {
    NoMovesMeaning(g, Red);
    NoMovesMeaning(g, Green);
  }

  /** A colour has no legal move exactly when count_placeable reports zero. */
  lemma NoMovesMeaning(g: Grid, c: Stone)
    ensures PlaceableCount(g, c) == 0 <==> forall x, y | InBoard(x, y) :: !Placeable(g, x, y, c)
  {
    if PlaceableCount(g, c) == 0 {
      ColSumZero(PlaceableAt(g, c), 8, 8);
      forall x, y | InBoard(x, y)
        ensures !Placeable(g, x, y, c)
      {
        assert !PlaceableAt(g, c)(x, y);
      }
    } else {
      ColSumNonZero(PlaceableAt(g, c), 8, 8);
      var x, y :| 0 <= x < 8 && 0 <= y < 8 && PlaceableAt(g, c)(x, y);
      assert InBoard(x, y) && Placeable(g, x, y, c);
    }
  }

  lemma {:induction false} ColSumNonZero(p: (int, int) -> bool, w: int, h: int)
    requires 0 <= w <= 8 && 0 <= h <= 8 && ColSum(p, w, h) > 0
    ensures exists x, y :: 0 <= x < w && 0 <= y < h && p(x, y)
  {
    if ColSum(p, w - 1, h) > 0 {
      ColSumNonZero(p, w - 1, h);
    } else {
      ColCountNonZero(p, w - 1, h);
      var y :| 0 <= y < h && p(w - 1, y);
      assert 0 <= w - 1 < w && p(w - 1, y);
    }
  }

  lemma {:induction false} ColCountNonZero(p: (int, int) -> bool, x: int, h: int)
    requires 0 <= h <= 8 && ColCount(p, x, h) > 0
    ensures exists y :: 0 <= y < h && p(x, y)
  {
    if !p(x, h - 1) {
      ColCountNonZero(p, x, h - 1);
    }
  }

  /** A board without stones counts none of either colour. */
  lemma EmptyCounts(g: Grid)
    requires forall y, x | InBoard(x, y) :: g[y][x] == Black
    ensures StoneCount(g, Red) == 0 && StoneCount(g, Green) == 0
  {
    ColSumNoneBefore(StoneAt(g, Red), 8, 8);
    ColSumNoneBefore(StoneAt(g, Green), 8, 8);
  }

  lemma InitialSplits(g: Grid)
    requires g == InitialGrid()
    ensures Splits(StoneAt(g, Red), IsCell(3, 3), IsCell(4, 4))
    ensures Splits(StoneAt(g, Green), IsCell(3, 4), IsCell(4, 3))
  {
  }

  /** A predicate holding on exactly two distinct cells counts two. */
  lemma CountTwo(p: (int, int) -> bool, x1: int, y1: int, x2: int, y2: int)
    requires InBoard(x1, y1) && InBoard(x2, y2) && Splits(p, IsCell(x1, y1), IsCell(x2, y2))
    ensures ColSum(p, 8, 8) == 2
  {
    ColSumAdd(p, IsCell(x1, y1), IsCell(x2, y2), 8, 8);
    ColSumSingle(x1, y1, 8, 8);
    ColSumSingle(x2, y2, 8, 8);
  }

  /** The starting position holds two stones of each colour. */
  lemma InitialCounts(g: Grid)
    requires g == InitialGrid()
    ensures StoneCount(g, Red) == 2 && StoneCount(g, Green) == 2
  {
    InitialSplits(g);
    CountTwo(StoneAt(g, Red), 3, 3, 4, 4);
    CountTwo(StoneAt(g, Green), 3, 4, 4, 3);
  }

  /** Some empty cell accepts a stone of colour c. */
  ghost predicate HasMove(g: Grid, c: Stone)
  {
    exists x, y | InBoard(x, y) :: Placeable(g, x, y, c)
  }

  /** count_placeable reports a move exactly when there is one. */
  lemma HasMoveCount(g: Grid, c: Stone)
    ensures HasMove(g, c) <==> PlaceableCount(g, c) > 0
  {
    NoMovesMeaning(g, c);
  }

  /** In the opening position each colour has a move: red at (5, 3), which
      captures (4, 3) towards (3, 3), and green at (5, 4), which captures
      (4, 4) towards (3, 4). */
  lemma OpeningHasMoves()
    ensures HasMove(InitialGrid(), Red) && HasMove(InitialGrid(), Green)
  {
    OpeningRedMove(InitialGrid());
    OpeningGreenMove(InitialGrid());
  }

  lemma OpeningRedMove(g: Grid)
    requires g == InitialGrid()
    ensures Placeable(g, 5, 3, Red)
  {
    assert g[3][4] == Green && g[3][3] == Red;
    assert Scan(g, 4, 3, 2, Red, 1);
    assert Captures(g, 5, 3, Red, 2);
    FlipMaskBits(g, 5, 3, Red, 2);
  }

  lemma OpeningGreenMove(g: Grid)
    requires g == InitialGrid()
    ensures Placeable(g, 5, 4, Green)
  {
    assert g[4][4] == Red && g[4][3] == Green;
    assert Scan(g, 4, 4, 2, Green, 1);
    assert Captures(g, 5, 4, Green, 2);
    FlipMaskBits(g, 5, 4, Green, 2);
  }

  /** The stone init_board leaves on each cell. */
  function InitialStone(x: int, y: int): Stone
  {
    if (x == 3 && y == 3) || (x == 4 && y == 4) then Red
    else if (x == 4 && y == 3) || (x == 3 && y == 4) then Green
    else Black
  }

  lemma InitialCells(g: Grid)
    requires g == InitialGrid()
    ensures forall y, x | InBoard(x, y) :: g[y][x] == InitialStone(x, y)
  {
  }

  /** The four opening moves of each colour: red at (5, 3), (4, 2), (2, 4) and
      (3, 5); green at (5, 4), (4, 5), (2, 3) and (3, 2). */
  predicate OpeningSquare(c: Stone, x: int, y: int)
  {
    if c == Red then (x == 5 && y == 3) || (x == 4 && y == 2) || (x == 2 && y == 4) || (x == 3 && y == 5)
    else (x == 5 && y == 4) || (x == 4 && y == 5) || (x == 2 && y == 3) || (x == 3 && y == 2)
  }

  /** In the opening position a capture closes on the neighbouring stone: the
      two opponent stones are diagonal neighbours, and the cell beyond them is
      empty, so only the four squares of OpeningSquare capture. */
  lemma OpeningCaptureSquare(g: Grid, c: Stone, x: int, y: int, d: int, k: int)
    requires g == InitialGrid() && (c == Red || c == Green) && InBoard(x, y) && 0 <= d < 8
    requires CaptureAt(g, x, y, c, d, k)
    ensures OpeningSquare(c, x, y)
  {
    InitialCells(g);
    assert InBoard(RayX(x, d, 1), RayY(y, d, 1)) && g[RayY(y, d, 1)][RayX(x, d, 1)] == Opp(c);
    if k > 2 {
      assert InBoard(RayX(x, d, 2), RayY(y, d, 2)) && g[RayY(y, d, 2)][RayX(x, d, 2)] == Opp(c);
    }
  }

  /** Each opening square captures the neighbouring opponent stone: red and
      green squares above row 4 capture downwards (direction 0), those below
      upwards (direction 1), column 5 leftwards (2) and column 2 rightwards (3). */
  lemma OpeningSquareCaptures(g: Grid, c: Stone, x: int, y: int)
    requires g == InitialGrid() && (c == Red || c == Green) && InBoard(x, y) && OpeningSquare(c, x, y)
    ensures Placeable(g, x, y, c)
  {
    InitialCells(g);
    var d := if x == 5 then 2 else if x == 2 then 3 else if y < 4 then 0 else 1;
    assert CaptureAt(g, x, y, c, d, 2);
    PlaceableMeaning(g, x, y, c);
  }

  /** In the opening position a square is placeable exactly when it is one of
      the colour's four opening moves. */
  lemma OpeningPlaceable(g: Grid, c: Stone, x: int, y: int)
    requires g == InitialGrid() && (c == Red || c == Green) && InBoard(x, y)
    ensures Placeable(g, x, y, c) <==> OpeningSquare(c, x, y)
  {
    if Placeable(g, x, y, c) {
      PlaceableMeaning(g, x, y, c);
      var d, k :| 0 <= d < 8 && CaptureAt(g, x, y, c, d, k);
      OpeningCaptureSquare(g, c, x, y, d, k);
    }
    if OpeningSquare(c, x, y) {
      OpeningSquareCaptures(g, c, x, y);
    }
  }

  /** A predicate holding on exactly four distinct cells, given as two pairs, counts four. */
  lemma CountFour(p: (int, int) -> bool, q: (int, int) -> bool, r: (int, int) -> bool,
                  x1: int, y1: int, x2: int, y2: int, x3: int, y3: int, x4: int, y4: int)
    requires InBoard(x1, y1) && InBoard(x2, y2) && InBoard(x3, y3) && InBoard(x4, y4)
    requires Splits(p, q, r) && Splits(q, IsCell(x1, y1), IsCell(x2, y2)) && Splits(r, IsCell(x3, y3), IsCell(x4, y4))
    ensures ColSum(p, 8, 8) == 4
  {
    CountTwo(q, x1, y1, x2, y2);
    CountTwo(r, x3, y3, x4, y4);
    ColSumAdd(p, q, r, 8, 8);
  }

  /** In the opening position red has exactly four legal moves. */
  lemma OpeningRedCount(g: Grid)
    requires g == InitialGrid()
    ensures PlaceableCount(g, Red) == 4
  {
    var q := (x: int, y: int) => (x == 5 && y == 3) || (x == 4 && y == 2);
    var r := (x: int, y: int) => (x == 2 && y == 4) || (x == 3 && y == 5);
    forall x, y | 0 <= x < 8 && 0 <= y < 8
      ensures PlaceableAt(g, Red)(x, y) == (q(x, y) || r(x, y))
    {
      OpeningPlaceable(g, Red, x, y);
    }
    CountFour(PlaceableAt(g, Red), q, r, 5, 3, 4, 2, 2, 4, 3, 5);
  }

  /** In the opening position green has exactly four legal moves. */
  lemma OpeningGreenCount(g: Grid)
    requires g == InitialGrid()
    ensures PlaceableCount(g, Green) == 4
  {
    var q := (x: int, y: int) => (x == 5 && y == 4) || (x == 4 && y == 5);
    var r := (x: int, y: int) => (x == 2 && y == 3) || (x == 3 && y == 2);
    forall x, y | 0 <= x < 8 && 0 <= y < 8
      ensures PlaceableAt(g, Green)(x, y) == (q(x, y) || r(x, y))
    {
      OpeningPlaceable(g, Green, x, y);
    }
    CountFour(PlaceableAt(g, Green), q, r, 5, 4, 4, 5, 2, 3, 3, 2);
  }

  /** In the opening position each colour has exactly four legal moves. */
  lemma OpeningMoveCounts()
    ensures PlaceableCount(InitialGrid(), Red) == 4 && PlaceableCount(InitialGrid(), Green) == 4
  {
    OpeningRedCount(InitialGrid());
    OpeningGreenCount(InitialGrid());
  }
}
