/** The software side of the character-LCD driver of othello/lcd_lib4.h.
    Bytes for the display go into a 32-slot ring buffer (lcd_put, lcd_puts);
    flush_lcd drains it, sending each byte over the 4-bit data bus as its
    high nibble and then its low nibble, with the register-select line
    saying whether it is a command or a character. The pins themselves are
    not modelled: class Display keeps the ring buffer and its two positions,
    the state of the register-select line and the sequence of nibble
    transfers seen on the bus so far. */
module Lcd {

  /** BUFFER_SIZE. */
  const BufferSize: int := 32

  /** A byte as the library stores it (unsigned char). */
  type Byte = bv8

  /** The "clear display" command, LCD_CLEAR. */
  const ClearCommand: Byte := 0x01

  /** The character '0'. */
  const Zero: Byte := 0x30

  /** One transfer on the data lines DB7..DB4: the nibble on them and the
      register-select line (true for a character, false for a command). */
  datatype BusWrite = BusWrite(dataMode: bool, nibble: Byte)

  // ---------------------------------------------------------------------------
  // lcd_put's character substitution

  /** 'g', 'j', 'm', 'p', 'q', 'y': the letters with descenders, in the
      order of the custom glyphs 0x00..0x05 that set_pattern loads. */
  const Descenders: seq<Byte> := [0x67, 0x6A, 0x6D, 0x70, 0x71, 0x79]

  /** lcd_put's switch: a letter with a descender becomes the code of its
      custom glyph, every other byte is sent as it is. */
  function Remap(c: Byte): (r: Byte)
    ensures c in Descenders ==> r < 6 && Descenders[r as int] == c
    ensures c !in Descenders ==> r == c
  {
    if c == 0x67 then 0x00
    else if c == 0x6A then 0x01
    else if c == 0x6D then 0x02
    else if c == 0x70 then 0x03
    else if c == 0x71 then 0x04
    else if c == 0x79 then 0x05
    else c
  }

  /** Remap applied to each byte. */
  function Remapped(s: seq<Byte>): (r: seq<Byte>)
    ensures |r| == |s| && forall i | 0 <= i < |s| :: r[i] == Remap(s[i])
  {
    if s == [] then [] else [Remap(s[0])] + Remapped(s[1..])
  }

  /** No two letters share a glyph, and no glyph code is itself a letter
      that gets substituted: two different bytes are sent alike only when one
      is a glyph code and the other the letter drawn with that glyph. */
  lemma RemapInjective(a: Byte, b: Byte)
    requires Remap(a) == Remap(b)
    ensures a == b || a < 6 || b < 6
    ensures a != b ==> (a < 6 && b == Descenders[a as int]) || (b < 6 && a == Descenders[b as int])
  {
  }

  // ---------------------------------------------------------------------------
  // C strings

  /** The characters of a NUL-terminated string, up to the first NUL. */
  function CString(str: seq<Byte>): (s: seq<Byte>)
    requires 0 in str
    ensures |s| < |str| && s == str[..|s|] && str[|s|] == 0 && 0 !in s
  {
    if str[0] == 0 then [] else [str[0]] + CString(str[1..])
  }

  // ---------------------------------------------------------------------------
  // The ring buffer

  /** The bytes queued in a ring of BufferSize slots, from the read
      position up to (not including) the write position. */
  function Ring(s: seq<Byte>, r: int, w: int): (q: seq<Byte>)
    requires |s| == BufferSize && 0 <= r < BufferSize && 0 <= w < BufferSize
    ensures |q| == if r <= w then w - r else BufferSize - r + w
  {
    if r <= w then s[r..w] else s[r..] + s[..w]
  }

  /** The slot after p: `p++; if (p >= BUFFER_SIZE) p = 0;`. */
  function Next(p: int): int
  {
    if p + 1 >= BufferSize then 0 else p + 1
  }

  /** Writing at the write position and advancing it appends the byte,
      while fewer than BufferSize - 1 bytes are queued. */
  lemma RingPush(s: seq<Byte>, r: int, w: int, c: Byte)
    requires |s| == BufferSize && 0 <= r < BufferSize && 0 <= w < BufferSize
    requires |Ring(s, r, w)| < BufferSize - 1
    ensures Ring(s[w := c], r, Next(w)) == Ring(s, r, w) + [c]
  {
    var t := s[w := c];
    if r <= w {
      if w + 1 < BufferSize {
        assert t[r..w + 1] == s[r..w] + [c];
      } else {
        assert t[r..] + t[..0] == s[r..w] + [c];
      }
    } else {
      assert t[r..] == s[r..];
      assert t[..w + 1] == s[..w] + [c];
    }
  }

  /** With BufferSize - 1 bytes queued, one more write makes the write
      position catch up with the read position: the queue reads as empty. */
  lemma RingOverflow(s: seq<Byte>, r: int, w: int, c: Byte)
    requires |s| == BufferSize && 0 <= r < BufferSize && 0 <= w < BufferSize
    requires |Ring(s, r, w)| == BufferSize - 1
    ensures Ring(s[w := c], r, Next(w)) == []
  {
  }

  /** Taking the byte at the read position and advancing it removes the
      head of a non-empty queue. */
  lemma RingPop(s: seq<Byte>, r: int, w: int)
    requires |s| == BufferSize && 0 <= r < BufferSize && 0 <= w < BufferSize
    requires r != w
    ensures Ring(s, r, w) == [s[r]] + Ring(s, Next(r), w)
  {
    if r < w {
      PopInside(s, r, w);
    } else if r + 1 < BufferSize {
      PopWrapped(s, r, w);
    } else {
      PopLast(s, w);
    }
  }

  lemma PopInside(s: seq<Byte>, r: int, w: int)
    requires |s| == BufferSize && 0 <= r < w < BufferSize
    ensures s[r..w] == [s[r]] + s[r + 1..w]
  {
  }

  lemma PopWrapped(s: seq<Byte>, r: int, w: int)
    requires |s| == BufferSize && 0 <= w < r && r + 1 < BufferSize
    ensures s[r..] + s[..w] == [s[r]] + (s[r + 1..] + s[..w])
  {
    assert s[r..] == [s[r]] + s[r + 1..];
  }

  lemma PopLast(s: seq<Byte>, w: int)
    requires |s| == BufferSize && 0 <= w < BufferSize - 1
    ensures s[BufferSize - 1..] + s[..w] == [s[BufferSize - 1]] + s[0..w]
  {
    assert s[BufferSize - 1..] == [s[BufferSize - 1]];
  }

  // ---------------------------------------------------------------------------
  // The 4-bit bus

  /** flush_lcd's two transfers for one byte: data & 0xF0 on the upper data
      lines, then data << 4 (the low nibble). */
  function Transfers(dataMode: bool, b: Byte): seq<BusWrite>
  {
    [BusWrite(dataMode, b >> 4), BusWrite(dataMode, b & 0x0F)]
  }

  /** The transfers that send a sequence of bytes. */
  function Nibbles(dataMode: bool, s: seq<Byte>): (t: seq<BusWrite>)
    ensures |t| == 2 * |s|
  {
    if s == [] then [] else Transfers(dataMode, s[0]) + Nibbles(dataMode, s[1..])
  }

  /** What the display reassembles from the transfers: pairs of nibbles,
      high one first. */
  function Joined(t: seq<BusWrite>): seq<Byte>
  {
    if |t| < 2 then [] else [(t[0].nibble << 4) | t[1].nibble] + Joined(t[2..])
  }

  lemma NibblesJoin(b: Byte)
    ensures ((b >> 4) << 4) | (b & 0x0F) == b
  {
  }

  /** The display receives exactly the bytes sent, in order. */
  lemma {:induction false} JoinedNibbles(dataMode: bool, s: seq<Byte>)
    ensures Joined(Nibbles(dataMode, s)) == s
  {
    if s != [] {
      var t := Nibbles(dataMode, s);
      assert t[2..] == Nibbles(dataMode, s[1..]);
      JoinedNibbles(dataMode, s[1..]);
      NibblesJoin(s[0]);
    }
  }

  /** Every transfer carries one nibble, with the register-select line
      held throughout. */
  lemma {:induction false} NibblesAreNibbles(dataMode: bool, s: seq<Byte>)
    ensures forall i | 0 <= i < |Nibbles(dataMode, s)| ::
      Nibbles(dataMode, s)[i].nibble < 16 && Nibbles(dataMode, s)[i].dataMode == dataMode
  {
    if s != [] {
      NibblesAreNibbles(dataMode, s[1..]);
    }
  }

  /** One round of flush_lcd's loop, on values: the byte at the read
      position is the next one queued; sending it and advancing the read
      position leaves the rest of the queue to send. */
  lemma DrainStep(s: seq<Byte>, r: int, w: int, rest: seq<Byte>, sent: seq<BusWrite>, total: seq<BusWrite>, dataMode: bool)
    requires |s| == BufferSize && 0 <= r < BufferSize && 0 <= w < BufferSize && r != w
    requires Ring(s, r, w) == rest && sent + Nibbles(dataMode, rest) == total
    ensures |rest| > 0 && Ring(s, Next(r), w) == rest[1..]
    ensures (sent + Transfers(dataMode, s[r])) + Nibbles(dataMode, rest[1..]) == total
  {
    RingPop(s, r, w);
    var head, tail := Transfers(dataMode, s[r]), Nibbles(dataMode, rest[1..]);
    assert Nibbles(dataMode, rest) == head + tail;
    assert (sent + head) + tail == sent + (head + tail);
  }

  // ---------------------------------------------------------------------------
  // lcd_xy's address byte

  /** The "set DDRAM address" byte lcd_xy computes for column x and line y,
      both counted from 1, in unsigned-char arithmetic. */
  function Address(x: Byte, y: Byte): (r: Byte)
    ensures r & 0x80 == 0x80
    ensures y == 1 ==> 0x80 <= r <= 0x8F
    ensures y == 2 ==> 0xC0 <= r <= 0xCF
  {
    var col := if x - 1 > 0x0F then 0x00 else x - 1;
    var row := if y - 1 == 0x01 then 0x40 else y - 1;
    (col + row) | 0x80
  }

  /** Line 1 starts at DDRAM address 0x00. */
  lemma AddressFirstLine(x: Byte)
    requires 1 <= x <= 16
    ensures Address(x, 1) == 0x80 | (x - 1)
  {
  }

  /** Line 2 starts at DDRAM address 0x40. */
  lemma AddressSecondLine(x: Byte)
    requires 1 <= x <= 16
    ensures Address(x, 2) == 0x80 | (0x40 + (x - 1))
  {
  }

  /** A column outside 1..16 falls back to the first column. */
  lemma AddressColumnReset(x: Byte, y: Byte)
    requires !(1 <= x <= 16)
    ensures Address(x, y) == Address(1, y)
  {
  }

  /** The address byte is a command (bit 7 set), so lcd_put sends it as it is. */
  lemma AddressNotRemapped(x: Byte, y: Byte)
    ensures Address(x, y) >= 0x80 && Remap(Address(x, y)) == Address(x, y)
  {
  }

  // ---------------------------------------------------------------------------
  // lcd_dataout's decimal digits

  /** The character (d % 10) + '0'. */
  function DigitChar(d: int): (c: Byte)
    requires 0 <= d < 10
    ensures Zero <= c <= Zero + 9
  {
    (d as Byte) + Zero
  }

  /** The value of a digit character. */
  function DigitValue(c: Byte): int
  {
    (c - Zero) as int
  }

  lemma DigitRoundTrip(d: int)
    requires 0 <= d < 10
    ensures DigitValue(DigitChar(d)) == d
  {
    match d
    case 0 => case 1 => case 2 => case 3 => case 4 =>
    case 5 => case 6 => case 7 => case 8 => case _ =>
  }

  /** The decimal digits of n, most significant first; none for 0. */
  function Digits(n: nat): seq<Byte>
  {
    if n == 0 then [] else Digits(n / 10) + [DigitChar(n % 10)]
  }

  /** What lcd_dataout sends for n: "0" for zero, the digits otherwise. */
  function Decimal(n: nat): seq<Byte>
  {
    if n == 0 then [Zero] else Digits(n)
  }

  /** Reading decimal digits, most significant first. */
  function ParseDecimal(s: seq<Byte>): int
  {
    if s == [] then 0 else ParseDecimal(s[..|s| - 1]) * 10 + DigitValue(s[|s| - 1])
  }

  function Pow10(k: nat): nat
  {
    if k == 0 then 1 else 10 * Pow10(k - 1)
  }

  /** Every byte of Digits(n) is a digit character, and the first is not '0'. */
  lemma {:induction false} DigitsAreDigits(n: nat)
    ensures forall i | 0 <= i < |Digits(n)| :: Zero <= Digits(n)[i] <= Zero + 9
    ensures n > 0 ==> |Digits(n)| > 0 && Digits(n)[0] != Zero
  {
    if n > 0 {
      DigitsAreDigits(n / 10);
      if n / 10 == 0 {
        assert n % 10 != 0;
        DigitRoundTrip(n % 10);
      }
    }
  }

  /** The digits read back as the number. */
  lemma {:induction false} DigitsParse(n: nat)
    ensures ParseDecimal(Digits(n)) == n
  {
    if n > 0 {
      var s := Digits(n);
      assert s[..|s| - 1] == Digits(n / 10);
      DigitsParse(n / 10);
      DigitRoundTrip(n % 10);
    }
  }

  /** lcd_dataout's output reads back as the number, uses only digit
      characters and has no leading zero. */
  lemma DecimalRoundTrip(n: nat)
    ensures ParseDecimal(Decimal(n)) == n
    ensures |Decimal(n)| > 0 && (Decimal(n)[0] == Zero ==> n == 0)
    ensures forall i | 0 <= i < |Decimal(n)| :: Zero <= Decimal(n)[i] <= Zero + 9
  {
    DigitsAreDigits(n);
    if n == 0 {
      DigitRoundTrip(0);
    } else {
      DigitsParse(n);
    }
  }

  /** A number below 10^k has at most k digits. */
  lemma {:induction false} DigitsLength(n: nat, k: nat)
    requires n < Pow10(k)
    ensures |Digits(n)| <= k
  {
    if n > 0 {
      DigitsLength(n / 10, k - 1);
    }
  }

  /** An unsigned long has at most ten decimal digits: lcd_dataout's
      16-character scratch string is long enough. */
  lemma ULongDigits(n: nat)
    requires n < 0x1_0000_0000
    ensures |Digits(n)| <= 10
  {
    assert Pow10(10) == 10000000000;
    DigitsLength(n, 10);
  }

  /** Digit characters are not letters with descenders. */
  lemma DigitsNotRemapped(c: Byte)
    requires Zero <= c <= Zero + 9
    ensures Remap(c) == c
  {
  }

  /** The first loop of lcd_dataout: the digits of data into a local
      16-character string, least significant first. */
  method DecimalString(data: int) returns (str: array<Byte>, n: int)
    requires 0 < data < 0x1_0000_0000
    ensures fresh(str) && str.Length == 16 && n == |Digits(data)| && n <= str.Length
    ensures forall j | 0 <= j < n :: str[j] == Digits(data)[n - 1 - j]
  {
    ghost var digits := Digits(data);
    ULongDigits(data);
    str := new Byte[16];
    n := 0;
    var d := data;
    while d > 0
      invariant 0 <= d <= data && 0 <= n <= |digits|
      invariant Digits(d) == digits[..|digits| - n]
      invariant forall j | 0 <= j < n :: str[j] == digits[|digits| - 1 - j]
    {
      var c := DigitChar(d % 10);
      assert Digits(d) == Digits(d / 10) + [c];
      assert n < |digits| && digits[|digits| - 1 - n] == c && Digits(d / 10) == digits[..|digits| - (n + 1)] by {
        assert |Digits(d)| == |digits| - n;
        assert Digits(d)[|Digits(d)| - 1] == c;
      }
      str[n] := c;
      d := d / 10;
      n := n + 1;
    }
  }

  // ---------------------------------------------------------------------------
  // The driver state as a value

  /** The library's static state: the ring's slots, wp, rp, the
      register-select line (true in DATmode), and the transfers sent on
      the bus so far. */
  datatype Driver = Driver(cells: seq<Byte>, wp: int, rp: int, dataMode: bool, bus: seq<BusWrite>)

  predicate WfDriver(d: Driver)
  {
    |d.cells| == BufferSize && 0 <= d.wp < BufferSize && 0 <= d.rp < BufferSize
  }

  /** The bytes queued and not yet sent. */
  function Queued(d: Driver): seq<Byte>
    requires WfDriver(d)
  {
    Ring(d.cells, d.rp, d.wp)
  }

  /** The static state before any call: zeroed, nothing queued. */
  function Boot(): (d: Driver)
    ensures WfDriver(d) && Queued(d) == []
  {
    Driver(seq(BufferSize, _ => 0), 0, 0, false, [])
  }

  /** What lcd_put does to the state. */
  function PutByte(d: Driver, c: Byte): (e: Driver)
    requires WfDriver(d)
    ensures WfDriver(e)
  {
    d.(cells := d.cells[d.wp := Remap(c)], wp := Next(d.wp))
  }

  /** lcd_put of each byte in turn. */
  function PutAll(d: Driver, s: seq<Byte>): (e: Driver)
    requires WfDriver(d)
    ensures WfDriver(e)
    decreases |s|
  {
    if s == [] then d else PutAll(PutByte(d, s[0]), s[1..])
  }

  /** What flush_lcd does to the state. */
  function Flushed(d: Driver): (e: Driver)
    requires WfDriver(d)
    ensures WfDriver(e)
  {
    d.(rp := d.wp, bus := d.bus + Nibbles(d.dataMode, Queued(d)))
  }

  /** The pattern of lcd_clear and lcd_xy: flush, command mode, put the
      command byte, flush, character mode. */
  function Command(d: Driver, c: Byte): (e: Driver)
    requires WfDriver(d)
    ensures WfDriver(e)
  {
    Flushed(PutByte(Flushed(d).(dataMode := false), c)).(dataMode := true)
  }

  /** What lcd_dataout does to the state. */
  function DataOutState(d: Driver, n: nat): (e: Driver)
    requires WfDriver(d)
    ensures WfDriver(e)
  {
    Flushed(PutAll(d, Decimal(n)))
  }

  /** lcd_put appends the substituted byte while the ring has room for it. */
  lemma PutAppends(d: Driver, c: Byte)
    requires WfDriver(d) && |Queued(d)| < BufferSize - 1
    ensures Queued(PutByte(d, c)) == Queued(d) + [Remap(c)]
  {
    RingPush(d.cells, d.rp, d.wp, Remap(c));
  }

  /** lcd_put into a ring holding BufferSize - 1 bytes loses the whole queue. */
  lemma PutOverflows(d: Driver, c: Byte)
    requires WfDriver(d) && |Queued(d)| == BufferSize - 1
    ensures Queued(PutByte(d, c)) == []
  {
    RingOverflow(d.cells, d.rp, d.wp, Remap(c));
  }

  /** Putting a string that fits queues its substituted bytes after what
      was queued, and sends nothing. */
  lemma {:induction false} PutAllAppends(d: Driver, s: seq<Byte>)
    requires WfDriver(d) && |Queued(d)| + |s| < BufferSize
    ensures Queued(PutAll(d, s)) == Queued(d) + Remapped(s)
    decreases |s|
  {
    if s != [] {
      PutAppends(d, s[0]);
      PutAllAppends(PutByte(d, s[0]), s[1..]);
    }
  }

  /** flush_lcd sends the queue, in order, and empties it. */
  lemma FlushSends(d: Driver)
    requires WfDriver(d)
    ensures Queued(Flushed(d)) == []
    ensures Joined(Flushed(d).bus[|d.bus|..]) == Queued(d)
  {
    assert Flushed(d).bus[|d.bus|..] == Nibbles(d.dataMode, Queued(d));
    JoinedNibbles(d.dataMode, Queued(d));
  }

  /** A command byte that lcd_put leaves alone reaches the bus in command
      mode right after whatever was queued, and character mode follows. */
  lemma CommandSends(d: Driver, c: Byte)
    requires WfDriver(d) && Remap(c) == c
    ensures Command(d, c).bus == d.bus + Nibbles(d.dataMode, Queued(d)) + Nibbles(false, [c])
    ensures Queued(Command(d, c)) == [] && Command(d, c).dataMode
  {
    var e := Flushed(d).(dataMode := false);
    assert Queued(e) == [];
    PutAppends(e, c);
  }

  /** lcd_dataout sends what was queued followed by the decimal digits of
      n, when they fit the ring; in any case it leaves the queue empty. */
  lemma DataOutSends(d: Driver, n: nat)
    requires WfDriver(d)
    ensures Queued(DataOutState(d, n)) == [] && DataOutState(d, n).dataMode == d.dataMode
    ensures |Queued(d)| + |Decimal(n)| < BufferSize ==>
      DataOutState(d, n).bus == d.bus + Nibbles(d.dataMode, Queued(d) + Decimal(n))
  {
    PutAllKeepsMode(d, Decimal(n));
    if |Queued(d)| + |Decimal(n)| < BufferSize {
      PutAllAppends(d, Decimal(n));
      DecimalRoundTrip(n);
      forall i | 0 <= i < |Decimal(n)|
        ensures Remap(Decimal(n)[i]) == Decimal(n)[i]
      {
        DigitsNotRemapped(Decimal(n)[i]);
      }
      assert Remapped(Decimal(n)) == Decimal(n);
    }
  }

  lemma {:induction false} PutAllKeepsMode(d: Driver, s: seq<Byte>)
    requires WfDriver(d)
    ensures PutAll(d, s).dataMode == d.dataMode && PutAll(d, s).bus == d.bus
    decreases |s|
  {
    if s != [] {
      PutAllKeepsMode(PutByte(d, s[0]), s[1..]);
    }
  }

  // ---------------------------------------------------------------------------
  // The driver state

  class Display {
    /** buf */
    var buf: array<Byte>
    /** wp, where lcd_put writes next. */
    var wp: int
    /** rp, where flush_lcd reads next. */
    var rp: int
    /** LCD_RS: true in DATmode, false in CMDmode. */
    var dataMode: bool
    /** The transfers flush_lcd has put on the data bus so far. */
    var bus: seq<BusWrite>

    ghost function Snapshot(): Driver
      reads this, buf
    {
      Driver(buf[..], wp, rp, dataMode, bus)
    }

    ghost predicate Valid()
      reads this, buf
    {
      buf.Length == BufferSize && WfDriver(Snapshot())
    }

    constructor ()
      ensures Valid() && fresh(buf) && Snapshot() == Boot()
    {
      buf := new Byte[BufferSize](_ => 0);
      wp, rp := 0, 0;
      dataMode := false;
      bus := [];
    }

    /** lcd_put: store the substituted byte at wp and advance wp around
        the ring. Nothing checks for a full queue (see PutOverflows). */
    method Put(c: Byte)
      requires Valid()
      modifies this, buf
      ensures Valid() && buf == old(buf) && Snapshot() == PutByte(old(Snapshot()), c)
    {
      buf[wp] := Remap(c);
      wp := wp + 1;
      if wp >= BufferSize {
        wp := 0;
      }
    }

    /** lcd_puts: lcd_put each character up to the terminating NUL. */
    method Puts(str: seq<Byte>)
      requires Valid() && 0 in str
      modifies this, buf
      ensures Valid() && buf == old(buf) && Snapshot() == PutAll(old(Snapshot()), CString(str))
    {
      ghost var text := CString(str);
      var i := 0;
      while str[i] != 0
        invariant 0 <= i <= |text|
        invariant Valid() && buf == old(buf)
        invariant PutAll(Snapshot(), text[i..]) == PutAll(old(Snapshot()), text)
        decreases |text| - i
      {
        assert text[i..][1..] == text[i + 1..];
        Put(str[i]);
        i := i + 1;
      }
    }

    /** flush_lcd: send the queued bytes in order, each as two transfers,
        until the read position meets the write position. */
    method Flush()
      requires Valid()
      modifies this
      ensures Valid() && buf == old(buf) && Snapshot() == Flushed(old(Snapshot()))
    {
      ghost var cells := buf[..];
      ghost var total := bus + Nibbles(dataMode, Ring(cells, rp, wp));
      ghost var rest := Ring(cells, rp, wp);
      var r := rp;
      var sent := bus;
      while wp != r
        modifies {}
        invariant 0 <= r < BufferSize
        invariant Ring(cells, r, wp) == rest && sent + Nibbles(dataMode, rest) == total
        decreases |rest|
      {
        var data := buf[r];
        DrainStep(cells, r, wp, rest, sent, total, dataMode);
        r := r + 1;
        if r >= BufferSize {
          r := 0;
        }
        sent := sent + Transfers(dataMode, data);
        rest := rest[1..];
      }
      rp, bus := r, sent;
    }

    /** lcd_clear: send what is queued, then the clear command in command
        mode, and return to character mode. */
    method Clear()
      requires Valid()
      modifies this, buf
      ensures Valid() && buf == old(buf) && Snapshot() == Command(old(Snapshot()), ClearCommand)
    {
      Flush();
      dataMode := false;
      Put(ClearCommand);
      Flush();
      dataMode := true;
    }

    /** lcd_xy: send what is queued, then the "set DDRAM address" command
        for column x of line y, and return to character mode. */
    method Xy(x: Byte, y: Byte)
      requires Valid()
      modifies this, buf
      ensures Valid() && buf == old(buf) && Snapshot() == Command(old(Snapshot()), Address(x, y))
    {
      Flush();
      dataMode := false;
      var col := x - 1;
      var row := y - 1;
      if col > 0x0F {
        col := 0x00;
      }
      if row == 0x01 {
        row := 0x40;
      }
      var adr := (col + row) | 0x80;
      assert adr == Address(x, y);
      Put(adr);
      Flush();
      dataMode := true;
    }

    /** The second loop of lcd_dataout: the first n characters of str,
        last one first, into the ring buffer. */
    method PutReversed(str: array<Byte>, n: int, ghost text: seq<Byte>)
      requires Valid() && str != buf && 0 <= n <= str.Length && |text| == n
      requires forall j | 0 <= j < n :: str[j] == text[n - 1 - j]
      modifies this, buf
      ensures Valid() && buf == old(buf) && Snapshot() == PutAll(old(Snapshot()), text)
    {
      ghost var start := Snapshot();
      var i := n - 1;
      while i >= 0
        invariant -1 <= i < n
        invariant Valid() && buf == old(buf)
        invariant forall j | 0 <= j < n :: str[j] == text[n - 1 - j]
        invariant PutAll(Snapshot(), text[n - 1 - i..]) == PutAll(start, text)
      {
        assert text[n - 1 - i..] == [str[i]] + text[n - i..];
        Put(str[i]);
        i := i - 1;
      }
    }

    /** lcd_dataout: queue the decimal digits of data, most significant
        first ("0" for zero), and send everything queued. */
    method DataOut(data: int)
      requires Valid() && 0 <= data < 0x1_0000_0000
      modifies this, buf
      ensures Valid() && buf == old(buf) && Snapshot() == DataOutState(old(Snapshot()), data)
    {
      if data == 0 {
        Put(Zero);
        assert PutAll(old(Snapshot()), Decimal(0)) == Snapshot();
        Flush();
        return;
      }
      var str, n := DecimalString(data);
      PutReversed(str, n, Digits(data));
      Flush();
    }
  }
}
