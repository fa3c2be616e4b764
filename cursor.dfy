/** The cursor of othello/othello.c and the rotary-encoder arithmetic that
    drives it: move_cursor's stepping with wrap-around, the AI's walk to its
    destination in the AI_MOVE state, and get_rotary_delta with the
    left/right tests. */
module Cursors {
  import opened Board

  /** enum Direction. */
  datatype Direction = Left | Right | Up | Down

  /** The square move_cursor steps to from p. LEFT and RIGHT move along a
      row and wrap into the row above (LEFT) or below (RIGHT), and from the
      last row to the first; UP and DOWN move along a column and wrap into
      the column to the right (UP) or left (DOWN) the same way. */
  function Moved(p: Pos, dir: Direction): (r: Pos)
    ensures InBoard(p.x, p.y) ==> InBoard(r.x, r.y)
  {
    match dir
    case Left =>
      if p.x - 1 < 0 then Pos(Width - 1, if p.y + 1 > Height - 1 then 0 else p.y + 1) else Pos(p.x - 1, p.y)
    case Right =>
      if p.x + 1 > Width - 1 then Pos(0, if p.y - 1 < 0 then Height - 1 else p.y - 1) else Pos(p.x + 1, p.y)
    case Up =>
      if p.y + 1 > Height - 1 then Pos(if p.x + 1 > Width - 1 then 0 else p.x + 1, 0) else Pos(p.x, p.y + 1)
    case Down =>
      if p.y - 1 < 0 then Pos(if p.x - 1 < 0 then Width - 1 else p.x - 1, Height - 1) else Pos(p.x, p.y - 1)
  }

  /** The direction that undoes dir. */
  function Reverse(dir: Direction): Direction
  {
    match dir
    case Left => Right
    case Right => Left
    case Up => Down
    case Down => Up
  }

  /** LEFT and RIGHT undo each other, and so do UP and DOWN, on every square
      of the board, wrap-arounds included. */
  lemma MovedReverse(p: Pos, dir: Direction)
    requires InBoard(p.x, p.y)
    ensures Moved(Moved(p, dir), Reverse(dir)) == p
  {
  }

  /** The order LEFT walks the board in: along a row from right to left, the
      rows from bottom to top. */
  function LeftIndex(p: Pos): int
  {
    p.y * Width + (Width - 1 - p.x)
  }

  /** The order UP walks the board in: along a column from bottom to top, the
      columns from left to right. */
  function UpIndex(p: Pos): int
  {
    p.x * Height + p.y
  }

  /** LEFT steps to the next square of a cyclic order of all 64 squares and
      RIGHT to the previous one, so repeated presses reach every square. */
  lemma LeftCycles(p: Pos)
    requires InBoard(p.x, p.y)
    ensures LeftIndex(Moved(p, Left)) == (LeftIndex(p) + 1) % 64
    ensures LeftIndex(Moved(p, Right)) == (LeftIndex(p) + 63) % 64
  {
    var i := LeftIndex(p);
    assert 0 <= i < 64;
    if p.x == 0 && p.y == Height - 1 {
      assert i == 63;
    } else if p.x == Width - 1 && p.y == 0 {
      assert i == 0;
    }
  }

  /** UP steps to the next square of a cyclic order of all 64 squares and
      DOWN to the previous one. */
  lemma UpCycles(p: Pos)
    requires InBoard(p.x, p.y)
    ensures UpIndex(Moved(p, Up)) == (UpIndex(p) + 1) % 64
    ensures UpIndex(Moved(p, Down)) == (UpIndex(p) + 63) % 64
  {
    var i := UpIndex(p);
    assert 0 <= i < 64;
    if p.x == Width - 1 && p.y == Height - 1 {
      assert i == 63;
    } else if p.x == 0 && p.y == 0 {
      assert i == 0;
    }
  }

  // ---------------------------------------------------------------------------
  // The AI's walk to its destination (state AI_MOVE)

  /** One tick of AI_MOVE: one step RIGHT or LEFT towards dest's column, then
      one step UP or DOWN towards its row. */
  function AiMoveTick(p: Pos, dest: Pos): (r: Pos)
    ensures InBoard(p.x, p.y) ==> InBoard(r.x, r.y)
    ensures p == dest ==> r == dest
  {
    var p1 := if p.x < dest.x then Moved(p, Right) else if p.x > dest.x then Moved(p, Left) else p;
    if p1.y < dest.y then Moved(p1, Up) else if p1.y > dest.y then Moved(p1, Down) else p1
  }

  function Abs(a: int): nat
  {
    if a < 0 then -a else a
  }

  /** The number of ticks the walk takes: the larger coordinate distance. */
  function Distance(p: Pos, q: Pos): nat
  {
    var dx, dy := Abs(p.x - q.x), Abs(p.y - q.y);
    if dx >= dy then dx else dy
  }

  function Sign(a: int): int
  {
    if a > 0 then 1 else if a < 0 then -1 else 0
  }

  /** Between squares of the board a tick never wraps: it moves each
      coordinate one step towards the destination, so the distance shrinks
      by one. */
  lemma AiMoveTickNoWrap(p: Pos, dest: Pos)
    requires InBoard(p.x, p.y) && InBoard(dest.x, dest.y)
    ensures AiMoveTick(p, dest) == Pos(p.x + Sign(dest.x - p.x), p.y + Sign(dest.y - p.y))
    ensures InBoard(AiMoveTick(p, dest).x, AiMoveTick(p, dest).y)
    ensures Distance(AiMoveTick(p, dest), dest) == if p == dest then 0 else Distance(p, dest) - 1
  {
  }

  /** The square after n ticks of AI_MOVE. */
  function AiWalk(p: Pos, dest: Pos, n: nat): Pos
    decreases n
  {
    if n == 0 then p else AiWalk(AiMoveTick(p, dest), dest, n - 1)
  }

  /** From a square of the board towards a square of the board, the cursor
      is at dest after exactly Distance(p, dest) ticks and at no earlier
      tick. */
  lemma {:induction false} AiWalkArrives(p: Pos, dest: Pos, n: nat)
    requires InBoard(p.x, p.y) && InBoard(dest.x, dest.y)
    ensures InBoard(AiWalk(p, dest, n).x, AiWalk(p, dest, n).y)
    ensures Distance(AiWalk(p, dest, n), dest) == if n <= Distance(p, dest) then Distance(p, dest) - n else 0
    ensures AiWalk(p, dest, n) == dest <==> n >= Distance(p, dest)
    decreases n
  {
    if n > 0 {
      AiMoveTickNoWrap(p, dest);
      AiWalkArrives(AiMoveTick(p, dest), dest, n - 1);
    }
  }

  /** The number of AI_MOVE ticks before PLACE_CHECK: the arrival test
      follows the moves of the same tick, so a cursor already at dest still
      takes one. */
  function AiMoveTicks(p: Pos, dest: Pos): nat
  {
    if Distance(p, dest) == 0 then 1 else Distance(p, dest)
  }

  /** Tick k (counting from 1) ends AI_MOVE exactly when k is AiMoveTicks. */
  lemma AiMoveEnds(p: Pos, dest: Pos, k: nat)
    requires InBoard(p.x, p.y) && InBoard(dest.x, dest.y) && 1 <= k <= AiMoveTicks(p, dest)
    ensures AiWalk(p, dest, k) == dest <==> k == AiMoveTicks(p, dest)
  {
    AiWalkArrives(p, dest, k);
  }

  // ---------------------------------------------------------------------------
  // The global cursor

  /** struct Cursor: the cursor square, the AI's destination and the colour
      to move (stone_black once the game has ended). */
  class Cursor {
    var x: int
    var y: int
    var destX: int
    var destY: int
    var color: Stone

    ghost predicate Valid()
      reads this
    {
      InBoard(x, y)
    }

    /** The zero-initialised static struct: (0, 0), destination (0, 0),
        stone_red (enum value 0). */
    constructor ()
      ensures Valid() && x == 0 && y == 0 && destX == 0 && destY == 0 && color == Red
    {
      x, y, destX, destY, color := 0, 0, 0, 0, Red;
    }

    /** init_Cursor: red to move, cursor at (5, 3); the destination is kept. */
    method Init()
      modifies this
      ensures Valid() && x == 5 && y == 3 && color == Red
      ensures destX == old(destX) && destY == old(destY)
    {
      color := Red;
      x := 5;
      y := 3;
    }

    /** move_cursor. */
    method MoveCursor(dir: Direction)
      modifies this
      ensures Pos(x, y) == Moved(old(Pos(x, y)), dir)
      ensures destX == old(destX) && destY == old(destY) && color == old(color)
    {
      var cx := x;
      var cy := y;
      match dir {
        case Left =>
          cx := cx - 1;
          if cx < 0 {
            cx := Width - 1;
            cy := cy + 1;
            if cy > Height - 1 {
              cy := 0;
            }
          }
        case Right =>
          cx := cx + 1;
          if cx > Width - 1 {
            cx := 0;
            cy := cy - 1;
            if cy < 0 {
              cy := Height - 1;
            }
          }
        case Up =>
          cy := cy + 1;
          if cy > Height - 1 {
            cx := cx + 1;
            cy := 0;
            if cx > Width - 1 {
              cx := 0;
            }
          }
        case Down =>
          cy := cy - 1;
          if cy < 0 {
            cy := Height - 1;
            cx := cx - 1;
            if cx < 0 {
              cx := Width - 1;
            }
          }
      }
      x := cx;
      y := cy;
    }

    /** The cursor moves of one AI_MOVE tick; arrived is the test that sends
        the machine to PLACE_CHECK. */
    method AiMoveStep() returns (arrived: bool)
      modifies this
      ensures Pos(x, y) == AiMoveTick(old(Pos(x, y)), Pos(destX, destY))
      ensures arrived <==> x == destX && y == destY
      ensures destX == old(destX) && destY == old(destY) && color == old(color)
    {
      if x < destX {
        MoveCursor(Right);
      } else if x > destX {
        MoveCursor(Left);
      }
      if y < destY {
        MoveCursor(Up);
      } else if y > destY {
        MoveCursor(Down);
      }
      arrived := x == destX && y == destY;
    }
  }

  // ---------------------------------------------------------------------------
  // The rotary encoder

  /** unsigned short int. */
  type U16 = v: int | 0 <= v < 0x1_0000

  /** PULSE_DIFF_PER_CLICK: the counts of one click. */
  const PulsePerClick: int := 4

  /** A conversion to short int: the value modulo 2^16, read as signed. */
  function ToShort(v: int): (r: int)
    ensures -0x8000 <= r < 0x8000 && (v - r) % 0x1_0000 == 0
  {
    var m := v % 0x1_0000;
    if m >= 0x8000 then m - 0x1_0000 else m
  }

  /** C's integer division, which truncates toward zero. */
  function DivTrunc(a: int, b: int): int
    requires b > 0
  {
    if a >= 0 then a / b else -((-a) / b)
  }

  /** get_rotary_delta: the signed 16-bit count difference, rounded toward
      zero to whole clicks. */
  function RotaryDelta(current: U16, prev: U16): (r: int)
    ensures r % PulsePerClick == 0
    ensures var d := ToShort(current - prev);
      (d >= 0 ==> 0 <= r <= d < r + PulsePerClick) && (d < 0 ==> r - PulsePerClick < d <= r <= 0)
  {
    DivTrunc(ToShort(current - prev), PulsePerClick) * PulsePerClick
  }

  /** is_rotary_turned_left. */
  predicate TurnedLeft(current: U16, prev: U16)
  {
    RotaryDelta(current, prev) >= PulsePerClick
  }

  /** is_rotary_turned_right. */
  predicate TurnedRight(current: U16, prev: U16)
  {
    RotaryDelta(current, prev) <= -PulsePerClick
  }

  /** A turn to the left is a count difference of at least one click, a turn
      to the right one of at most minus one click; never both. */
  lemma TurnsMeaning(current: U16, prev: U16)
    ensures TurnedLeft(current, prev) <==> ToShort(current - prev) >= PulsePerClick
    ensures TurnedRight(current, prev) <==> ToShort(current - prev) <= -PulsePerClick
    ensures !(TurnedLeft(current, prev) && TurnedRight(current, prev))
  {
  }

  /** rotary.prev += get_rotary_delta(&rotary), in unsigned short. */
  function Consume(current: U16, prev: U16): U16
  {
    (prev + RotaryDelta(current, prev)) % 0x1_0000
  }

  /** Consuming the clicks read leaves less than one click behind, so the
      same reading is not taken as a second turn. */
  lemma ConsumeLeavesRemainder(current: U16, prev: U16)
    ensures -PulsePerClick < ToShort(current - Consume(current, prev)) < PulsePerClick
    ensures !TurnedLeft(current, Consume(current, prev)) && !TurnedRight(current, Consume(current, prev))
  {
    var d := ToShort(current - prev);
    var r := RotaryDelta(current, prev);
    var p' := Consume(current, prev);
    assert (current - p' - (d - r)) % 0x1_0000 == 0 by {
      var q1 := (current - prev - d) / 0x1_0000;
      var q2 := (prev + r) / 0x1_0000;
      assert current - prev - d == q1 * 0x1_0000;
      assert p' == prev + r - q2 * 0x1_0000;
      assert current - p' - (d - r) == (q1 + q2) * 0x1_0000;
    }
    ToShortExact(current - p', d - r);
  }

  /** A value congruent to a short int converts to it. */
  lemma ToShortExact(v: int, w: int)
    requires -0x8000 <= w < 0x8000 && (v - w) % 0x1_0000 == 0
    ensures ToShort(v) == w
  {
    var q := (v - w) / 0x1_0000;
    assert v == w + q * 0x1_0000;
    if w >= 0 {
      assert v % 0x1_0000 == w;
    } else {
      assert v % 0x1_0000 == w + 0x1_0000;
    }
  }
}
