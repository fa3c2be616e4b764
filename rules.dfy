/** The rules engine of othello/othello.c as it runs: routines that read or
    update a board held in an 8x8 array in place, each proved against the
    specification functions of module Board. */
module Rules {
  import opened Board

  /** The board arrays of the program: brd[MAT_HEIGHT][MAT_WIDTH], indexed a[y, x]. */
  predicate IsBoard(a: array2<Stone>)
  {
    a.Length0 == Height && a.Length1 == Width
  }

  /** The board an array currently holds, as a value. */
  ghost function Cells(a: array2<Stone>): (g: Grid)
    requires IsBoard(a)
    reads a
    ensures forall y, x | InBoard(x, y) :: g[y][x] == a[y, x]
  {
    seq(8, y requires 0 <= y < 8 reads a => seq(8, x requires 0 <= x < 8 reads a => a[y, x]))
  }

  /** place: cell (x, y) becomes c and nothing else changes. */
  method Place(a: array2<Stone>, x: int, y: int, c: Stone)
    requires IsBoard(a) && InBoard(x, y)
    modifies a
    ensures Cells(a) == SetCell(old(Cells(a)), x, y, c)
  {
    a[y, x] := c;
    GridExt(Cells(a), SetCell(old(Cells(a)), x, y, c));
  }

  /** delete: cell (x, y) becomes empty and nothing else changes. */
  method Delete(a: array2<Stone>, x: int, y: int)
    requires IsBoard(a) && InBoard(x, y)
    modifies a
    ensures Cells(a) == SetCell(old(Cells(a)), x, y, Black)
  {
    Place(a, x, y, Black);
  }

  /** The column-by-column deletion loop that opens init_board and line_up_result. */
  method DeleteAll(a: array2<Stone>)
    requires IsBoard(a)
    modifies a
    ensures Cells(a) == EmptyGrid()
  {
    var x := 0;
    while x < Width
      invariant 0 <= x <= Width
      invariant forall yy, xx | InBoard(xx, yy) :: a[yy, xx] == if xx < x then Black else old(a[yy, xx])
    {
      var y := 0;
      while y < Height
        invariant 0 <= y <= Height
        invariant forall yy, xx | InBoard(xx, yy) ::
          a[yy, xx] == if xx < x || (xx == x && yy < y) then Black else old(a[yy, xx])
      {
        a[y, x] := Black;
        y := y + 1;
      }
      x := x + 1;
    }
    GridExt(Cells(a), EmptyGrid());
  }

  /** make_flip_dir_flag: bit d of the result is set exactly when direction d captures. */
  method MakeFlipDirFlag(a: array2<Stone>, x: int, y: int, c: Stone) returns (flag: bv8)
    requires IsBoard(a)
    ensures flag == FlipMask(Cells(a), x, y, c)
  {
    ghost var g := Cells(a);
    flag := 0;
    var dir := 0;
    while dir < 8
      invariant 0 <= dir <= 8
      invariant flag == MaskUpTo(g, x, y, c, dir)
    {
      var captures := ScanDirection(a, x, y, c, dir);
      if captures {
        flag := flag | DirBit(dir);
      }
      MaskStep(g, x, y, c, dir, captures, flag);
      dir := dir + 1;
    }
  }

  lemma MaskStep(g: Grid, x: int, y: int, c: Stone, dir: int, captures: bool, flag: bv8)
    requires 0 <= dir < 8 && captures == Captures(g, x, y, c, dir)
    requires flag == MaskUpTo(g, x, y, c, dir) | (if captures then DirBit(dir) else 0)
    ensures flag == MaskUpTo(g, x, y, c, dir + 1)
  {
  }

  /** The inner loop of make_flip_dir_flag: walk direction dir over the
      opponent's stones and report whether one of c's stones closes the run. */
  method ScanDirection(a: array2<Stone>, x: int, y: int, c: Stone, dir: int) returns (captures: bool)
    requires IsBoard(a) && 0 <= dir < 8
    ensures captures == Captures(Cells(a), x, y, c, dir)
  {
    ghost var g := Cells(a);
    var dx, dy := 0, 0;
    var i := 0;
    while i < 8
      invariant 0 <= i <= 8
      invariant dx == Offset(DX[dir], i) && dy == Offset(DY[dir], i)
      invariant Scan(g, x + dx, y + dy, dir, c, i) == Captures(g, x, y, c, dir)
    {
      dx := dx + DX[dir];
      dy := dy + DY[dir];
      if !InBoard(x + dx, y + dy) {
        return false;
      }
      var search := a[y + dy, x + dx];
      if search == Black {
        return false;
      }
      if search == c {
        return i > 0;
      }
      i := i + 1;
    }
    captures := false;
  }

  /** is_placeable: the cell is empty and some direction captures. */
  method IsPlaceable(a: array2<Stone>, x: int, y: int, c: Stone) returns (ok: bool)
    requires IsBoard(a) && InBoard(x, y)
    ensures ok == Placeable(Cells(a), x, y, c)
  {
    if a[y, x] != Black {
      return false;
    }
    var flag := MakeFlipDirFlag(a, x, y, c);
    ok := flag != 0;
  }

  // ---------------------------------------------------------------------------
  // flip_stones

  /** Cell (cx, cy) is one of the first i cells of the ray from (x, y) in direction d. */
  ghost predicate RayPrefix(x: int, y: int, d: int, i: int, cx: int, cy: int)
    requires 0 <= d < 8
  {
    exists k :: 1 <= k <= i && cx == RayX(x, d, k) && cy == RayY(y, d, k)
  }

  /** The board while flip_stones walks direction n: directions before n done,
      and the first i cells of direction n turned. */
  ghost function PartialFlip(g: Grid, mask: bv8, x: int, y: int, c: Stone, n: int, i: int): (r: Grid)
    requires 0 <= n < 8
    ensures forall cy, cx | InBoard(cx, cy) ::
      r[cy][cx] == if FlipsCell(g, mask, x, y, c, n, cx, cy) || RayPrefix(x, y, n, i, cx, cy) then c else g[cy][cx]
  {
    seq(8, cy requires 0 <= cy < 8 =>
      seq(8, cx requires 0 <= cx < 8 =>
        if FlipsCell(g, mask, x, y, c, n, cx, cy) || RayPrefix(x, y, n, i, cx, cy) then c else g[cy][cx]))
  }

  lemma PartialFlipStart(g: Grid, mask: bv8, x: int, y: int, c: Stone, n: int)
    requires 0 <= n < 8
    ensures PartialFlip(g, mask, x, y, c, n, 0) == FlippedUpTo(g, mask, x, y, c, n)
  {
    GridExt(PartialFlip(g, mask, x, y, c, n, 0), FlippedUpTo(g, mask, x, y, c, n));
  }

  lemma FlippedUpToNone(g: Grid, mask: bv8, x: int, y: int, c: Stone)
    ensures FlippedUpTo(g, mask, x, y, c, 0) == g
  {
    GridExt(FlippedUpTo(g, mask, x, y, c, 0), g);
  }

  lemma FlippedUpToSkip(g: Grid, mask: bv8, x: int, y: int, c: Stone, n: int)
    requires 0 <= n < 8 && !HasDir(mask, n)
    ensures FlippedUpTo(g, mask, x, y, c, n + 1) == FlippedUpTo(g, mask, x, y, c, n)
  {
    forall cy, cx | InBoard(cx, cy)
      ensures FlipsCell(g, mask, x, y, c, n + 1, cx, cy) == FlipsCell(g, mask, x, y, c, n, cx, cy)
    {
      if FlipsCell(g, mask, x, y, c, n + 1, cx, cy) {
        var d :| 0 <= d < n + 1 && d < 8 && HasDir(mask, d) && OnFlippedRay(g, x, y, c, d, cx, cy);
        assert d < n;
      }
    }
    GridExt(FlippedUpTo(g, mask, x, y, c, n + 1), FlippedUpTo(g, mask, x, y, c, n));
  }

  /** The (i+1)-th cell of direction n still holds its original colour mid-walk. */
  lemma PartialFlipAhead(g: Grid, mask: bv8, x: int, y: int, c: Stone, n: int, i: int)
    requires 0 <= n < 8 && 0 <= i && InBoard(RayX(x, n, i + 1), RayY(y, n, i + 1))
    ensures PartialFlip(g, mask, x, y, c, n, i)[RayY(y, n, i + 1)][RayX(x, n, i + 1)]
            == g[RayY(y, n, i + 1)][RayX(x, n, i + 1)]
  {
    var cx, cy := RayX(x, n, i + 1), RayY(y, n, i + 1);
    if FlipsCell(g, mask, x, y, c, n, cx, cy) {
      var d :| 0 <= d < n && d < 8 && HasDir(mask, d) && OnFlippedRay(g, x, y, c, d, cx, cy);
      var k :| 1 <= k && OpponentRun(g, x, y, c, d, k + 1) && cx == RayX(x, d, k) && cy == RayY(y, d, k);
      RaysDisjoint(x, y, d, k, n, i + 1);
    }
    if RayPrefix(x, y, n, i, cx, cy) {
      var k :| 1 <= k <= i && cx == RayX(x, n, k) && cy == RayY(y, n, k);
      RaysDisjoint(x, y, n, k, n, i + 1);
    }
  }

  /** Turning the (i+1)-th cell extends the walked prefix by one. */
  lemma PartialFlipStep(g: Grid, mask: bv8, x: int, y: int, c: Stone, n: int, i: int)
    requires 0 <= n < 8 && 0 <= i && InBoard(RayX(x, n, i + 1), RayY(y, n, i + 1))
    ensures SetCell(PartialFlip(g, mask, x, y, c, n, i), RayX(x, n, i + 1), RayY(y, n, i + 1), c)
            == PartialFlip(g, mask, x, y, c, n, i + 1)
  {
    var before := PartialFlip(g, mask, x, y, c, n, i);
    var after := PartialFlip(g, mask, x, y, c, n, i + 1);
    var updated := SetCell(before, RayX(x, n, i + 1), RayY(y, n, i + 1), c);
    forall cy, cx | InBoard(cx, cy)
      ensures updated[cy][cx] == after[cy][cx]
    {
      if RayPrefix(x, y, n, i + 1, cx, cy) && !RayPrefix(x, y, n, i, cx, cy) {
        var k :| 1 <= k <= i + 1 && cx == RayX(x, n, k) && cy == RayY(y, n, k);
        assert k == i + 1;
      }
      if RayPrefix(x, y, n, i, cx, cy) {
        var k :| 1 <= k <= i && cx == RayX(x, n, k) && cy == RayY(y, n, k);
        assert RayPrefix(x, y, n, i + 1, cx, cy);
      }
    }
    GridExt(updated, after);
  }

  /** Once the walk reaches the closing stone e, direction n is complete. */
  lemma PartialFlipDone(g: Grid, mask: bv8, x: int, y: int, c: Stone, n: int, e: int)
    requires 0 <= n < 8 && HasDir(mask, n) && c != Black && CaptureAt(g, x, y, c, n, e)
    ensures PartialFlip(g, mask, x, y, c, n, e - 1) == FlippedUpTo(g, mask, x, y, c, n + 1)
  {
    CapturesIff(g, x, y, c, n);
    forall cy, cx | InBoard(cx, cy)
      ensures (FlipsCell(g, mask, x, y, c, n, cx, cy) || RayPrefix(x, y, n, e - 1, cx, cy))
              == FlipsCell(g, mask, x, y, c, n + 1, cx, cy)
    {
      if RayPrefix(x, y, n, e - 1, cx, cy) {
        var k :| 1 <= k <= e - 1 && cx == RayX(x, n, k) && cy == RayY(y, n, k);
        assert OpponentRun(g, x, y, c, n, k + 1);
        assert OnFlippedRay(g, x, y, c, n, cx, cy);
      }
      if FlipsCell(g, mask, x, y, c, n + 1, cx, cy) && !FlipsCell(g, mask, x, y, c, n, cx, cy) {
        var d :| 0 <= d < n + 1 && d < 8 && HasDir(mask, d) && OnFlippedRay(g, x, y, c, d, cx, cy);
        assert d == n;
        var k :| 1 <= k && OpponentRun(g, x, y, c, n, k + 1) && cx == RayX(x, n, k) && cy == RayY(y, n, k);
        assert RayPrefix(x, y, n, e - 1, cx, cy);
      }
    }
    GridExt(PartialFlip(g, mask, x, y, c, n, e - 1), FlippedUpTo(g, mask, x, y, c, n + 1));
  }


  /** One step of the inner walk of flip_stones: the next cell of a capturing
      ray is on the board and untouched so far; it closes the ray exactly when
      it holds colour c, and otherwise turning it to c extends the walk. */
  lemma WalkStep(g: Grid, mask: bv8, x: int, y: int, c: Stone, d: int, e: int, i: int)
    requires 0 <= d < 8 && c != Black && CaptureAt(g, x, y, c, d, e) && 0 <= i < e
    ensures RayX(x, d, i) + DX[d] == RayX(x, d, i + 1) && RayY(y, d, i) + DY[d] == RayY(y, d, i + 1)
    ensures InBoard(RayX(x, d, i + 1), RayY(y, d, i + 1))
    ensures PartialFlip(g, mask, x, y, c, d, i)[RayY(y, d, i + 1)][RayX(x, d, i + 1)]
            == g[RayY(y, d, i + 1)][RayX(x, d, i + 1)]
    ensures g[RayY(y, d, i + 1)][RayX(x, d, i + 1)] == c <==> i + 1 == e
    ensures g[RayY(y, d, i + 1)][RayX(x, d, i + 1)] != c ==>
            (if g[RayY(y, d, i + 1)][RayX(x, d, i + 1)] == Red then Green else Red) == c
    ensures SetCell(PartialFlip(g, mask, x, y, c, d, i), RayX(x, d, i + 1), RayY(y, d, i + 1), c)
            == PartialFlip(g, mask, x, y, c, d, i + 1)
  {
    RayStep(x, y, d, i);
    if i + 1 < e {
      assert InBoard(RayX(x, d, i + 1), RayY(y, d, i + 1));
    }
    PartialFlipAhead(g, mask, x, y, c, d, i);
    PartialFlipStep(g, mask, x, y, c, d, i);
  }

  /** One round of the inner walk of flip_stones: look at the next cell
      (nx, ny) of the ray; a stone of colour c ends the walk, any other stone
      is turned to c. */
  method FlipNext(a: array2<Stone>, nx: int, ny: int, c: Stone,
                  ghost g: Grid, ghost flag: bv8, ghost x: int, ghost y: int, ghost dir: int, ghost e: int, ghost i: int)
    returns (stop: bool)
    requires IsBoard(a) && 0 <= dir < 8 && c != Black && CaptureAt(g, x, y, c, dir, e) && 0 <= i < e
    requires nx == RayX(x, dir, i + 1) && ny == RayY(y, dir, i + 1)
    requires Cells(a) == PartialFlip(g, flag, x, y, c, dir, i)
    modifies a
    ensures stop <==> i + 1 == e
    ensures stop ==> Cells(a) == PartialFlip(g, flag, x, y, c, dir, e - 1)
    ensures !stop ==> Cells(a) == PartialFlip(g, flag, x, y, c, dir, i + 1)
  {
    WalkStep(g, flag, x, y, c, dir, e, i);
    var search := a[ny, nx];
    if search == c {
      return true;
    }
    Place(a, nx, ny, if search == Red then Green else Red);
    return false;
  }

  /** The inner walk of flip_stones along one flagged direction: every opponent
      stone up to the closing stone of colour c is turned. */
  method FlipRay(a: array2<Stone>, x: int, y: int, c: Stone, dir: int,
                 ghost g: Grid, ghost flag: bv8, ghost e: int)
    requires IsBoard(a) && InBoard(x, y) && 0 <= dir < 8 && c != Black
    requires CaptureAt(g, x, y, c, dir, e)
    requires Cells(a) == PartialFlip(g, flag, x, y, c, dir, 0)
    modifies a
    ensures Cells(a) == PartialFlip(g, flag, x, y, c, dir, e - 1)
  {
    RayOnBoardSpan(x, y, dir, 0, e);
    var dx, dy := 0, 0;
    var i := 0;
    while i < 8
      invariant 0 <= i < e
      invariant x + dx == RayX(x, dir, i) && y + dy == RayY(y, dir, i)
      invariant Cells(a) == PartialFlip(g, flag, x, y, c, dir, i)
    {
      RayStep(x, y, dir, i);
      dx := dx + DX[dir];
      dy := dy + DY[dir];
      var stop := FlipNext(a, x + dx, y + dy, c, g, flag, x, y, dir, e, i);
      if stop {
        return;
      }
      i := i + 1;
    }
    assert false;
  }

  /** flip_stones: for every flagged direction, turn the stones up to the first
      stone of colour c. The source checks no bounds, so the mask must hold only
      capturing directions, as make_flip_dir_flag's result does. */
  method FlipStones(flag: bv8, a: array2<Stone>, x: int, y: int, c: Stone)
    requires IsBoard(a) && InBoard(x, y) && MaskWithin(Cells(a), flag, x, y, c)
    modifies a
    ensures Cells(a) == Flipped(old(Cells(a)), flag, x, y, c)
  {
    ghost var g := Cells(a);
    FlippedUpToNone(g, flag, x, y, c);
    var dir := 0;
    while dir < 8
      invariant 0 <= dir <= 8
      invariant Cells(a) == FlippedUpTo(g, flag, x, y, c, dir)
    {
      if flag & DirBit(dir) != 0 {
        MaskWithinBits(g, flag, x, y, c, dir);
        CapturesColour(g, x, y, c, dir);
        CapturesIff(g, x, y, c, dir);
        ghost var e :| CaptureAt(g, x, y, c, dir, e);
        PartialFlipStart(g, flag, x, y, c, dir);
        FlipRay(a, x, y, c, dir, g, flag, e);
        PartialFlipDone(g, flag, x, y, c, dir, e);
      } else {
        FlippedUpToSkip(g, flag, x, y, c, dir);
      }
      dir := dir + 1;
    }
  }

  // ---------------------------------------------------------------------------
  // Counting and the board-wide routines

  /** count_placeable: scans column by column and counts the legal cells. */
  method CountPlaceable(a: array2<Stone>, c: Stone) returns (count: int)
    requires IsBoard(a)
    ensures count == PlaceableCount(Cells(a), c)
  {
    ghost var g := Cells(a);
    count := 0;
    var x := 0;
    while x < Width
      invariant 0 <= x <= Width
      invariant count == ColSum(PlaceableAt(g, c), x, 8)
    {
      var y := 0;
      while y < Height
        invariant 0 <= y <= Height
        invariant count == ColSum(PlaceableAt(g, c), x, 8) + ColCount(PlaceableAt(g, c), x, y)
      {
        var ok := IsPlaceable(a, x, y, c);
        if ok {
          count := count + 1;
        }
        y := y + 1;
      }
      x := x + 1;
    }
  }

  /** count_stones: scans column by column and counts the cells holding c. */
  method CountStones(a: array2<Stone>, c: Stone) returns (count: int)
    requires IsBoard(a)
    ensures count == StoneCount(Cells(a), c)
  {
    ghost var g := Cells(a);
    count := 0;
    var x := 0;
    while x < Width
      invariant 0 <= x <= Width
      invariant count == ColSum(StoneAt(g, c), x, Height)
    {
      var y := 0;
      while y < Height
        invariant 0 <= y <= Height
        invariant count == ColSum(StoneAt(g, c), x, Height) + ColCount(StoneAt(g, c), x, y)
      {
        assert StoneAt(g, c)(x, y) == (a[y, x] == c);
        if a[y, x] == c {
          count := count + 1;
        }
        y := y + 1;
      }
      assert ColSum(StoneAt(g, c), x + 1, Height) == ColSum(StoneAt(g, c), x, Height) + ColCount(StoneAt(g, c), x, Height);
      x := x + 1;
    }
  }

  /** init_board: empty the board, then the four centre stones. */
  method InitBoard(a: array2<Stone>)
    requires IsBoard(a)
    modifies a
    ensures Cells(a) == InitialGrid()
  {
    DeleteAll(a);
    Place(a, 3, 3, Red);
    Place(a, 4, 4, Red);
    Place(a, 3, 4, Green);
    Place(a, 4, 3, Green);
  }

  lemma LineUpEmpty()
    ensures LineUpGrid(0, 0) == EmptyGrid()
  {
    GridExt(LineUpGrid(0, 0), EmptyGrid());
  }

  /** Placing the k-th stone of line_up_result grows the lined-up prefix by one cell. */
  lemma LineUpStep(r: nat, k: nat)
    requires k < 64
    ensures SetCell(LineUpGrid(Min(r, k), k - Min(r, k)), k % 8, 7 - k / 8, if k < r then Red else Green)
            == LineUpGrid(Min(r, k + 1), k + 1 - Min(r, k + 1))
  {
    var before := LineUpGrid(Min(r, k), k - Min(r, k));
    var updated := SetCell(before, k % 8, 7 - k / 8, if k < r then Red else Green);
    var after := LineUpGrid(Min(r, k + 1), k + 1 - Min(r, k + 1));
    forall cy, cx | InBoard(cx, cy)
      ensures updated[cy][cx] == after[cy][cx]
    {
      assert LineUpIndex(cx, cy) == k <==> cx == k % 8 && cy == 7 - k / 8;
    }
    GridExt(updated, after);
  }

  /** line_up_result: empty the board, then fill cells in order from the bottom-left,
      first stone1 red stones, then stone2 green ones. The drawing, the tone and
      the delay between stones are not modelled. */
  method LineUpResult(a: array2<Stone>, stone1: int, stone2: int)
    requires IsBoard(a) && 0 <= stone1 && 0 <= stone2 && stone1 + stone2 <= 64
    modifies a
    ensures Cells(a) == LineUpGrid(stone1, stone2)
  {
    DeleteAll(a);
    LineUpEmpty();
    var s1, s2 := stone1, stone2;
    var x := 0;
    while s1 != 0 || s2 != 0
      invariant 0 <= x <= stone1 + stone2
      invariant s1 == stone1 - Min(stone1, x) && s2 == stone2 - (x - Min(stone1, x))
      invariant Cells(a) == LineUpGrid(Min(stone1, x), x - Min(stone1, x))
      decreases s1 + s2
    {
      LineUpStep(stone1, x);
      if s1 != 0 {
        Place(a, x % Width, (Width - 1) - x / Width, Red);
        s1 := s1 - 1;
      } else {
        Place(a, x % Width, (Width - 1) - x / Width, Green);
        s2 := s2 - 1;
      }
      x := x + 1;
    }
  }
}
