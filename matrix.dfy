/** The frame-buffer library of matrixAPI/matrix.c: a drawing buffer
    (canvas) that the program writes, scrolls, copies and pastes, and a
    display buffer that matrix_flush publishes and matrix_convert packs,
    column by column, into the 16-bit words the LED driver shifts out.
    The pure functions over frame values are the specification; class
    LedMatrix holds the two static arrays and its methods update them in
    place, each proved against those functions. */
module Matrix {

  const MatWidth: int := 8
  const MatHeight: int := 8

  /** enum led_color: led_off, led_red, led_green, led_orange. */
  type LedColor = c: int | 0 <= c <= 3

  const Off: LedColor := 0
  const Red: LedColor := 1
  const Green: LedColor := 2
  const Orange: LedColor := 3

  /** The negation of is_out_of_WIDTH and is_out_of_HEIGHT. */
  predicate OnMatrix(x: int, y: int)
  {
    0 <= x < MatWidth && 0 <= y < MatHeight
  }

  ghost predicate IsFrame(g: seq<seq<LedColor>>)
  {
    |g| == MatHeight && forall y | 0 <= y < MatHeight :: |g[y]| == MatWidth
  }

  /** The contents of an 8x8 buffer, indexed g[y][x] like canvas[y][x]. */
  type Frame = g: seq<seq<LedColor>> | IsFrame(g) witness seq(8, _ => seq(8, _ => 0))

  /** Two frames agreeing on every cell are equal. */
  lemma FrameExt(g: Frame, h: Frame)
    requires forall y, x | OnMatrix(x, y) :: g[y][x] == h[y][x]
    ensures g == h
  {
    forall y | 0 <= y < MatHeight
      ensures g[y] == h[y]
    {
    }
  }

  /** A buffer with every LED off, as the static initialisers and memset leave it. */
  function Blank(): (g: Frame)
  {
    seq(8, _ => seq(8, _ => Off))
  }

  // ---------------------------------------------------------------------------
  // Write, read, delete

  /** The canvas after matrix_write(x, y, c): unchanged when (x, y) is off the
      matrix or c is no led_color, otherwise with cell (x, y) set to c. */
  function Written(g: Frame, x: int, y: int, c: int): Frame
  {
    if !OnMatrix(x, y) || c < Off || Orange < c then g
    else var row: seq<LedColor> := g[y][x := c]; g[y := row]
  }

  /** What matrix_read(x, y) returns on canvas g. */
  function ReadAt(g: Frame, x: int, y: int): LedColor
  {
    if !OnMatrix(x, y) then Off else g[y][x]
  }

  /** The canvas after matrix_delete(x, y). */
  function Deleted(g: Frame, x: int, y: int): Frame
  {
    if !OnMatrix(x, y) then g else var row: seq<LedColor> := g[y][x := Off]; g[y := row]
  }

  /** A valid write changes cell (x, y) to c and no other cell; an invalid
      one changes nothing. */
  lemma WriteChangesOneCell(g: Frame, x: int, y: int, c: int)
    ensures var r := Written(g, x, y, c);
      (OnMatrix(x, y) && Off <= c <= Orange ==> r[y][x] == c)
      && (forall yy, xx | OnMatrix(xx, yy) && (xx != x || yy != y) :: r[yy][xx] == g[yy][xx])
      && (!OnMatrix(x, y) || c < Off || Orange < c ==> r == g)
  {
  }

  /** A read after a valid write returns the colour written; a read of any
      other cell returns what it returned before. */
  lemma ReadAfterWrite(g: Frame, x: int, y: int, c: int, x': int, y': int)
    requires OnMatrix(x, y) && Off <= c <= Orange
    ensures ReadAt(Written(g, x, y, c), x, y) == c
    ensures (x' != x || y' != y) ==> ReadAt(Written(g, x, y, c), x', y') == ReadAt(g, x', y')
  {
  }

  /** Reading off the matrix gives led_off whatever the canvas holds. */
  lemma ReadOffMatrix(g: Frame, x: int, y: int)
    requires !OnMatrix(x, y)
    ensures ReadAt(g, x, y) == Off
  {
  }

  /** Deleting a cell is writing led_off to it; after it the cell reads led_off. */
  lemma DeleteIsWriteOff(g: Frame, x: int, y: int)
    ensures Deleted(g, x, y) == Written(g, x, y, Off)
    ensures ReadAt(Deleted(g, x, y), x, y) == Off
  {
  }

  /** After matrix_clear every cell reads led_off. */
  lemma ClearReadsOff(x: int, y: int)
    ensures ReadAt(Blank(), x, y) == Off
  {
  }

  // ---------------------------------------------------------------------------
  // Scrolling

  /** matrix_scroll_left: column x takes column x + 1; the last column goes off. */
  function ScrolledLeft(g: Frame): Frame
  {
    seq(8, y requires 0 <= y < 8 => seq(8, x requires 0 <= x < 8 => if x < MatWidth - 1 then g[y][x + 1] else Off))
  }

  /** matrix_scroll_right: column x takes column x - 1; column 0 goes off. */
  function ScrolledRight(g: Frame): Frame
  {
    seq(8, y requires 0 <= y < 8 => seq(8, x requires 0 <= x < 8 => if 0 < x then g[y][x - 1] else Off))
  }

  /** matrix_scroll_down: row y takes row y + 1; the last row goes off. */
  function ScrolledDown(g: Frame): Frame
  {
    seq(8, y requires 0 <= y < 8 => seq(8, x requires 0 <= x < 8 => if y < MatHeight - 1 then g[y + 1][x] else Off))
  }

  /** matrix_scroll_up: row y takes row y - 1; row 0 goes off. */
  function ScrolledUp(g: Frame): Frame
  {
    seq(8, y requires 0 <= y < 8 => seq(8, x requires 0 <= x < 8 => if 0 < y then g[y - 1][x] else Off))
  }

  /** matrix_scroll: 'u', 'd', 'l' and 'r' scroll; any other character does nothing. */
  function Scrolled(g: Frame, dir: char): Frame
  {
    match dir
    case 'u' => ScrolledUp(g)
    case 'd' => ScrolledDown(g)
    case 'l' => ScrolledLeft(g)
    case 'r' => ScrolledRight(g)
    case _ => g
  }

  /** The frame with column x switched off. */
  function ColumnOff(g: Frame, x: int): Frame
  {
    seq(8, y requires 0 <= y < 8 => seq(8, xx requires 0 <= xx < 8 => if xx == x then Off else g[y][xx]))
  }

  /** The frame with row y switched off. */
  function RowOff(g: Frame, y: int): Frame
  {
    seq(8, yy requires 0 <= yy < 8 => if yy == y then seq(8, _ => Off) else g[yy])
  }

  /** Scrolling right after left restores every column but column 0, which
      is left off. */
  lemma RightAfterLeft(g: Frame)
    ensures ScrolledRight(ScrolledLeft(g)) == ColumnOff(g, 0)
  {
    FrameExt(ScrolledRight(ScrolledLeft(g)), ColumnOff(g, 0));
  }

  /** Scrolling left after right restores every column but the last. */
  lemma LeftAfterRight(g: Frame)
    ensures ScrolledLeft(ScrolledRight(g)) == ColumnOff(g, MatWidth - 1)
  {
    FrameExt(ScrolledLeft(ScrolledRight(g)), ColumnOff(g, MatWidth - 1));
  }

  /** Scrolling up after down restores every row but row 0. */
  lemma UpAfterDown(g: Frame)
    ensures ScrolledUp(ScrolledDown(g)) == RowOff(g, 0)
  {
    FrameExt(ScrolledUp(ScrolledDown(g)), RowOff(g, 0));
  }

  /** Scrolling down after up restores every row but the last. */
  lemma DownAfterUp(g: Frame)
    ensures ScrolledDown(ScrolledUp(g)) == RowOff(g, MatHeight - 1)
  {
    FrameExt(ScrolledDown(ScrolledUp(g)), RowOff(g, MatHeight - 1));
  }

  /** matrix_scroll with an unknown direction changes nothing. */
  lemma ScrollUnknown(g: Frame, dir: char)
    requires dir !in "udlr"
    ensures Scrolled(g, dir) == g
  {
  }

  // ---------------------------------------------------------------------------
  // Converting a display column

  /** `c & led_red`: led_red and led_orange light the red LED. */
  predicate HasRed(c: LedColor)
  {
    c == Red || c == Orange
  }

  /** `c & led_green`: led_green and led_orange light the green LED. */
  predicate HasGreen(c: LedColor)
  {
    c == Green || c == Orange
  }

  /** HasRed and HasGreen are the source's bit tests `c & led_red` and
      `c & led_green`. */
  lemma ColorTestsAreBitTests(c: LedColor)
    ensures HasRed(c) <==> (c as bv8) & (Red as bv8) != 0
    ensures HasGreen(c) <==> (c as bv8) & (Green as bv8) != 0
  {
    match c
    case 0 => case 1 => case 2 => case 3 =>
  }

  /** The LEDs each colour lights: off none, red and green their own, orange both. */
  lemma ColorBits()
    ensures !HasRed(Off) && !HasGreen(Off)
    ensures HasRed(Red) && !HasGreen(Red)
    ensures !HasRed(Green) && HasGreen(Green)
    ensures HasRed(Orange) && HasGreen(Orange)
  {
  }

  /** `1 << k` in a 16-bit word. */
  function Mask(k: nat): bv16
    requires k < 16
  {
    (1 as bv16) << k
  }

  /** Bit k of a word. */
  predicate Bit(w: bv16, k: nat)
    requires k < 16
  {
    w & Mask(k) != 0
  }

  lemma OrMask(a: bv16, b: bv16, m: bv16)
    ensures (a | b) & m != 0 <==> a & m != 0 || b & m != 0
  {
  }

  /** Mask(j) has bit k set exactly when j is k. */
  lemma OneBit(j: nat, k: nat)
    requires j < 16 && k < 16
    ensures Bit(Mask(j), k) <==> j == k
  {
  }

  lemma SetBitOnly(w: bv16, j: nat, k: nat)
    requires j < 16 && k < 16
    ensures Bit(w | Mask(j), k) ==> Bit(w, k) || j == k
  {
    OrMask(w, Mask(j), Mask(k));
    OneBit(j, k);
  }

  lemma SetBitKeeps(w: bv16, j: nat, k: nat)
    requires j < 16 && k < 16
    ensures Bit(w, k) || j == k ==> Bit(w | Mask(j), k)
  {
    OrMask(w, Mask(j), Mask(k));
    if j == k {
      OneBit(j, k);
    }
  }

  /** Setting bit j of a word sets bit j and leaves every other bit as it was. */
  lemma SetBit(w: bv16, j: nat, k: nat)
    requires j < 16 && k < 16
    ensures Bit(w | Mask(j), k) <==> Bit(w, k) || j == k
  {
    SetBitOnly(w, j, k);
    SetBitKeeps(w, j, k);
  }

  lemma ZeroBit(k: nat)
    requires k < 16
    ensures !Bit(0, k)
  {
  }

  /** Which bit of matrix_convert's word belongs to which LED: bit y + 8 to
      the red LED of row y, bit y to the green LED of row y. */
  ghost predicate ColumnBit(g: Frame, x: int, k: nat)
    requires 0 <= x < MatWidth && k < 16
  {
    if k >= 8 then HasRed(g[k - 8][x]) else HasGreen(g[k][x])
  }

  /** One row of matrix_convert's loop: if bits 0..y-1 and 8..y+7 agree with
      the column and the row's colour sets its red and green bits, then bits
      0..y and 8..y+8 agree. */
  lemma ConvertStep(before: bv16, after: bv16, g: Frame, x: int, y: int, c: LedColor)
    requires 0 <= x < MatWidth && 0 <= y < MatHeight && c == g[y][x]
    requires forall k: nat | k < 16 :: Bit(before, k) <==> k % 8 < y && ColumnBit(g, x, k)
    requires forall k: nat | k < 16 ::
      Bit(after, k) <==> Bit(before, k) || (HasRed(c) && k == y + 8) || (HasGreen(c) && k == y)
    ensures forall k: nat | k < 16 :: Bit(after, k) <==> k % 8 < y + 1 && ColumnBit(g, x, k)
  {
  }

  // ---------------------------------------------------------------------------
  // The two static buffers

  /** An 8x8 array of the library, indexed a[y, x]. */
  predicate IsBuffer(a: array2<LedColor>)
  {
    a.Length0 == MatHeight && a.Length1 == MatWidth
  }

  /** The frame an array currently holds. */
  ghost function Cells(a: array2<LedColor>): (g: Frame)
    requires IsBuffer(a)
    reads a
    ensures forall y, x | OnMatrix(x, y) :: g[y][x] == a[y, x]
  {
    seq(8, y requires 0 <= y < 8 reads a => seq(8, x requires 0 <= x < 8 reads a => a[y, x]))
  }

  /** memmove between two distinct 8x8 buffers. */
  method MoveCells(dst: array2<LedColor>, src: array2<LedColor>)
    requires IsBuffer(dst) && IsBuffer(src) && dst != src
    modifies dst
    ensures Cells(dst) == Cells(src)
  {
    var y := 0;
    while y < MatHeight
      invariant 0 <= y <= MatHeight
      invariant forall yy, xx | OnMatrix(xx, yy) && yy < y :: dst[yy, xx] == src[yy, xx]
    {
      var x := 0;
      while x < MatWidth
        invariant 0 <= x <= MatWidth
        invariant forall yy, xx | OnMatrix(xx, yy) && (yy < y || (yy == y && xx < x)) :: dst[yy, xx] == src[yy, xx]
      {
        dst[y, x] := src[y, x];
        x := x + 1;
      }
      y := y + 1;
    }
    FrameExt(Cells(dst), Cells(src));
  }

  /** canvas and display, the two static arrays of matrix.c. */
  class LedMatrix {
    var canvas: array2<LedColor>
    var display: array2<LedColor>

    ghost predicate Valid()
      reads this
    {
      IsBuffer(canvas) && IsBuffer(display) && canvas != display
    }

    ghost function Canvas(): Frame
      requires Valid()
      reads this, canvas
    {
      Cells(canvas)
    }

    ghost function Display(): Frame
      requires Valid()
      reads this, display
    {
      Cells(display)
    }

    /** Both buffers start with every LED off (`= {led_off}`). */
    constructor()
      ensures Valid() && fresh(canvas) && fresh(display)
      ensures Canvas() == Blank() && Display() == Blank()
    {
      canvas := new LedColor[8, 8]((_, _) => Off);
      display := new LedColor[8, 8]((_, _) => Off);
      new;
      FrameExt(Cells(canvas), Blank());
      FrameExt(Cells(display), Blank());
    }

    /** matrix_write. */
    method Write(x: int, y: int, c: int)
      requires Valid()
      modifies canvas
      ensures Canvas() == Written(old(Canvas()), x, y, c)
    {
      if !OnMatrix(x, y) {
        return;
      }
      if Orange < c || c < Off {
        return;
      }
      canvas[y, x] := c;
      FrameExt(Canvas(), Written(old(Canvas()), x, y, c));
    }

    /** matrix_read. */
    method Read(x: int, y: int) returns (c: LedColor)
      requires Valid()
      ensures c == ReadAt(Canvas(), x, y)
      ensures OnMatrix(x, y) ==> c == canvas[y, x]
      ensures !OnMatrix(x, y) ==> c == Off
    {
      if !OnMatrix(x, y) {
        return Off;
      }
      return canvas[y, x];
    }

    /** matrix_delete. */
    method Delete(x: int, y: int)
      requires Valid()
      modifies canvas
      ensures Canvas() == Deleted(old(Canvas()), x, y)
    {
      if !OnMatrix(x, y) {
        return;
      }
      canvas[y, x] := Off;
      FrameExt(Canvas(), Deleted(old(Canvas()), x, y));
    }

    /** matrix_clear: memset of the canvas to led_off. */
    method Clear()
      requires Valid()
      modifies canvas
      ensures Canvas() == Blank()
    {
      var y := 0;
      while y < MatHeight
        invariant 0 <= y <= MatHeight
        invariant forall yy, xx | OnMatrix(xx, yy) && yy < y :: canvas[yy, xx] == Off
      {
        var x := 0;
        while x < MatWidth
          invariant 0 <= x <= MatWidth
          invariant forall yy, xx | OnMatrix(xx, yy) && (yy < y || (yy == y && xx < x)) :: canvas[yy, xx] == Off
        {
          canvas[y, x] := Off;
          x := x + 1;
        }
        y := y + 1;
      }
      FrameExt(Canvas(), Blank());
    }

    /** matrix_copy: the caller's buffer receives the canvas, which is unchanged. */
    method Copy(dst: array2<LedColor>)
      requires Valid() && IsBuffer(dst) && dst != canvas && dst != display
      modifies dst
      ensures Cells(dst) == Canvas() && Canvas() == old(Canvas())
    {
      MoveCells(dst, canvas);
    }

    /** matrix_paste: the canvas receives the caller's buffer. */
    method Paste(src: array2<LedColor>)
      requires Valid() && IsBuffer(src) && src != canvas && src != display
      modifies canvas
      ensures Canvas() == Cells(src)
    {
      MoveCells(canvas, src);
    }

    /** matrix_flush: the display receives the canvas, which is unchanged. */
    method Flush()
      requires Valid()
      modifies display
      ensures Display() == old(Canvas()) && Canvas() == old(Canvas())
    {
      MoveCells(display, canvas);
    }

    /** matrix_scroll_left, loop for loop. */
    method ScrollLeft()
      requires Valid()
      modifies canvas
      ensures Canvas() == ScrolledLeft(old(Canvas()))
    {
      ghost var g := Canvas();
      var x := 0;
      while x < MatWidth - 1
        invariant 0 <= x <= MatWidth - 1
        invariant forall yy, xx {:trigger canvas[yy, xx]} | OnMatrix(xx, yy) ::
          canvas[yy, xx] == if xx < x then g[yy][xx + 1] else if x == MatWidth - 1 && xx == x then Off else g[yy][xx]
      {
        var y := 0;
        while y < MatHeight
          invariant 0 <= y <= MatHeight
          invariant forall yy, xx {:trigger canvas[yy, xx]} | OnMatrix(xx, yy) ::
            canvas[yy, xx] ==
              if xx < x || (xx == x && yy < y) then g[yy][xx + 1]
              else if xx == x + 1 && x + 1 == MatWidth - 1 && yy < y then Off
              else g[yy][xx]
        {
          canvas[y, x] := canvas[y, x + 1];
          if x + 1 == MatWidth - 1 {
            canvas[y, x + 1] := Off;
          }
          y := y + 1;
        }
        x := x + 1;
      }
      FrameExt(Canvas(), ScrolledLeft(g));
    }

    /** matrix_scroll_right, loop for loop. */
    method ScrollRight()
      requires Valid()
      modifies canvas
      ensures Canvas() == ScrolledRight(old(Canvas()))
    {
      ghost var g := Canvas();
      var x := MatWidth - 1;
      while 0 < x
        invariant 0 <= x <= MatWidth - 1
        invariant forall yy, xx {:trigger canvas[yy, xx]} | OnMatrix(xx, yy) ::
          canvas[yy, xx] == if xx > x then g[yy][xx - 1] else if x == 0 && xx == 0 then Off else g[yy][xx]
      {
        var y := 0;
        while y < MatHeight
          invariant 0 <= y <= MatHeight
          invariant forall yy, xx {:trigger canvas[yy, xx]} | OnMatrix(xx, yy) ::
            canvas[yy, xx] ==
              if xx > x || (xx == x && yy < y) then g[yy][xx - 1]
              else if xx == x - 1 && x - 1 == 0 && yy < y then Off
              else g[yy][xx]
        {
          canvas[y, x] := canvas[y, x - 1];
          if x - 1 == 0 {
            canvas[y, x - 1] := Off;
          }
          y := y + 1;
        }
        x := x - 1;
      }
      FrameExt(Canvas(), ScrolledRight(g));
    }

    /** matrix_scroll_down, loop for loop. */
    method ScrollDown()
      requires Valid()
      modifies canvas
      ensures Canvas() == ScrolledDown(old(Canvas()))
    {
      ghost var g := Canvas();
      var y := 0;
      while y < MatHeight - 1
        invariant 0 <= y <= MatHeight - 1
        invariant forall yy, xx {:trigger canvas[yy, xx]} | OnMatrix(xx, yy) ::
          canvas[yy, xx] == if yy < y then g[yy + 1][xx] else if y == MatHeight - 1 && yy == y then Off else g[yy][xx]
      {
        var x := 0;
        while x < MatWidth
          invariant 0 <= x <= MatWidth
          invariant forall yy, xx {:trigger canvas[yy, xx]} | OnMatrix(xx, yy) ::
            canvas[yy, xx] ==
              if yy < y || (yy == y && xx < x) then g[yy + 1][xx]
              else if yy == y + 1 && y + 1 == MatHeight - 1 && xx < x then Off
              else g[yy][xx]
        {
          canvas[y, x] := canvas[y + 1, x];
          if y + 1 == MatHeight - 1 {
            canvas[y + 1, x] := Off;
          }
          x := x + 1;
        }
        y := y + 1;
      }
      FrameExt(Canvas(), ScrolledDown(g));
    }

    /** matrix_scroll_up, loop for loop. */
    method ScrollUp()
      requires Valid()
      modifies canvas
      ensures Canvas() == ScrolledUp(old(Canvas()))
    {
      ghost var g := Canvas();
      var y := MatHeight - 1;
      while 0 < y
        invariant 0 <= y <= MatHeight - 1
        invariant forall yy, xx {:trigger canvas[yy, xx]} | OnMatrix(xx, yy) ::
          canvas[yy, xx] == if yy > y then g[yy - 1][xx] else if y == 0 && yy == 0 then Off else g[yy][xx]
      {
        var x := 0;
        while x < MatWidth
          invariant 0 <= x <= MatWidth
          invariant forall yy, xx {:trigger canvas[yy, xx]} | OnMatrix(xx, yy) ::
            canvas[yy, xx] ==
              if yy > y || (yy == y && xx < x) then g[yy - 1][xx]
              else if yy == y - 1 && y - 1 == 0 && xx < x then Off
              else g[yy][xx]
        {
          canvas[y, x] := canvas[y - 1, x];
          if y - 1 == 0 {
            canvas[y - 1, x] := Off;
          }
          x := x + 1;
        }
        y := y - 1;
      }
      FrameExt(Canvas(), ScrolledUp(g));
    }

    /** matrix_scroll. */
    method Scroll(dir: char)
      requires Valid()
      modifies canvas
      ensures Canvas() == Scrolled(old(Canvas()), dir)
    {
      match dir
      case 'u' => ScrollUp();
      case 'd' => ScrollDown();
      case 'l' => ScrollLeft();
      case 'r' => ScrollRight();
      case _ =>
    }

    /** matrix_convert: for a column on the matrix, bit y + 8 of the word is
        set exactly when row y of the display shows red or orange and bit y
        exactly when it shows green or orange; those are all sixteen bits,
        so no other bit is set. A column off the matrix converts to 0. */
    method Convert(x: int) returns (data: bv16)
      requires Valid()
      ensures !(0 <= x < MatWidth) ==> data == 0
      ensures 0 <= x < MatWidth ==> forall k: nat | k < 16 :: Bit(data, k) <==> ColumnBit(Display(), x, k)
    {
      data := 0;
      if !(0 <= x < MatWidth) {
        return;
      }
      ghost var g := Display();
      var y := 0;
      forall k: nat | k < 16
        ensures !Bit(data, k)
      {
        ZeroBit(k);
      }
      while y < MatHeight
        invariant 0 <= y <= MatHeight
        invariant forall k: nat | k < 16 :: Bit(data, k) <==> k % 8 < y && ColumnBit(g, x, k)
      {
        var c := display[y, x];
        ColorTestsAreBitTests(c);
        ghost var before := data;
        if (c as bv8) & (Red as bv8) != 0 {
          data := data | ((1 as bv16) << (y + 8));
          assert data == before | Mask(y + 8);
          forall k: nat | k < 16
            ensures Bit(data, k) <==> Bit(before, k) || k == y + 8
          {
            SetBit(before, y + 8, k);
          }
        }
        ghost var mid := data;
        if (c as bv8) & (Green as bv8) != 0 {
          data := data | ((1 as bv16) << y);
          assert data == mid | Mask(y);
          forall k: nat | k < 16
            ensures Bit(data, k) <==> Bit(mid, k) || k == y
          {
            SetBit(mid, y, k);
          }
        }
        ConvertStep(before, data, g, x, y, c);
        y := y + 1;
      }
    }
  }
}
