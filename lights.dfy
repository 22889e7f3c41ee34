/**
  The hexagonal LED panel (device_commander/lights/animations.go): RGBW colours
  and their RGBA view, the 11 x 12 lookup table from grid cells to the 54 LEDs,
  copying a drawn image onto the LEDs, the 24- and 32-bit frame words sent to
  the LED driver, and the first animation of `Run`.

  The drawing library, the LED driver and the sleeps between frames are not
  modelled: the drawn image is a function from a cell to its 16-bit RGBA
  value, and each frame handed to the driver is returned to the caller.
 */
module Lights {

  /** `RGBW`: four 8-bit channels. */
  datatype Rgbw = Rgbw(r: bv8, g: bv8, b: bv8, w: bv8)

  const Off := Rgbw(0, 0, 0, 0)
  const White := Rgbw(255, 255, 255, 255)

  // ---------------------------------------------------------------------------
  // RGBW as a Go colour

  const Uint32Modulus := 0x1_0000_0000

  /** The four `uint32` results of `RGBA()`. */
  datatype Rgba = Rgba(r: int, g: int, b: int, a: int)

  /** One colour channel with white added, computed in `uint32`: `(c*255 + w*255) / 255`. */
  function AddWhite(c: bv8, w: bv8): int
  {
    ((c as int * 255 + w as int * 255) % Uint32Modulus) / 255
  }

  /** `RGBW.RGBA`. */
  function ToRgba(c: Rgbw): Rgba
  {
    Rgba(AddWhite(c.r, c.w), AddWhite(c.g, c.w), AddWhite(c.b, c.w), 0xffff)
  }

  /**
    Each colour channel is the channel plus white, with no overflow in `uint32`
    and no clamping (a channel can reach 510), and alpha is always 0xffff.
   */
  lemma ToRgbaAddsWhite(c: Rgbw)
    ensures ToRgba(c) == Rgba(c.r as int + c.w as int, c.g as int + c.w as int, c.b as int + c.w as int, 0xffff)
    ensures ToRgba(c).r <= 510 && ToRgba(c).g <= 510 && ToRgba(c).b <= 510
  {
    AddWhiteSum(c.r, c.w);
    AddWhiteSum(c.g, c.w);
    AddWhiteSum(c.b, c.w);
  }

  lemma AddWhiteSum(c: bv8, w: bv8)
    ensures AddWhite(c, w) == c as int + w as int
  {
    ChannelSum(c as int, w as int);
  }

  /** The channel arithmetic on plain integers: for channels below 256 the `uint32` sum never wraps and the division is exact. */
  lemma ChannelSum(a: int, b: int)
    requires 0 <= a < 256 && 0 <= b < 256
    ensures ((a * 255 + b * 255) % Uint32Modulus) / 255 == a + b
  {
    assert 0 <= a * 255 + b * 255 < Uint32Modulus;
  }

  // ---------------------------------------------------------------------------
  // Frame words

  /** `uint32(R)<<16 | uint32(G)<<8 | uint32(B)`, the word of `renderHexagonFrame`. */
  function Pack24(c: Rgbw): bv32
  {
    ((c.r as bv32) << 16) | ((c.g as bv32) << 8) | (c.b as bv32)
  }

  /** `uint32(W)<<24 | uint32(R)<<16 | uint32(G)<<8 | uint32(B)`, the word of the first `Run` animation. */
  function Pack32(c: Rgbw): bv32
  {
    ((c.w as bv32) << 24) | Pack24(c)
  }

  /** The byte of a frame word at the given bit offset. */
  function ByteAt(word: bv32, shift: bv32): bv8
    requires shift <= 24
  {
    ((word >> shift) & 0xFF) as bv8
  }

  /** Reads the four channels back out of a 32-bit frame word. */
  function Unpack(word: bv32): Rgbw
  {
    Rgbw(ByteAt(word, 16), ByteAt(word, 8), ByteAt(word, 0), ByteAt(word, 24))
  }

  /** The 32-bit word keeps all four channels: unpacking it gives the colour back, and every word is the packing of its channels. */
  lemma Pack32RoundTrip(c: Rgbw, word: bv32)
    ensures Unpack(Pack32(c)) == c
    ensures Pack32(Unpack(word)) == word
  {
  }

  /** The 24-bit word keeps red, green and blue exactly and drops white. */
  lemma Pack24RoundTrip(c: Rgbw, w: bv8)
    ensures Unpack(Pack24(c)) == c.(w := 0)
    ensures Pack24(c.(w := w)) == Pack24(c)
  {
  }

  /** A frame: one word per LED. */
  function Frame24(leds: seq<Rgbw>): (frame: seq<bv32>)
    ensures |frame| == |leds| && forall i :: 0 <= i < |leds| ==> frame[i] == Pack24(leds[i])
  {
    seq(|leds|, i requires 0 <= i < |leds| => Pack24(leds[i]))
  }

  function Frame32(leds: seq<Rgbw>): (frame: seq<bv32>)
    ensures |frame| == |leds| && forall i :: 0 <= i < |leds| ==> frame[i] == Pack32(leds[i])
  {
    seq(|leds|, i requires 0 <= i < |leds| => Pack32(leds[i]))
  }

  /** A 32-bit frame can be read back into the LEDs it was made from. */
  lemma Frame32RoundTrip(leds: seq<Rgbw>)
    ensures seq(|leds|, i requires 0 <= i < |leds| => Unpack(Frame32(leds)[i])) == leds
  {
    forall i | 0 <= i < |leds| ensures Unpack(Frame32(leds)[i]) == leds[i] {
      Pack32RoundTrip(leds[i], 0);
    }
  }

  // ---------------------------------------------------------------------------
  // The lookup table

  const Width := 11
  const Height := 12
  const LedCount := 54

  /** `LUT`, row by row: the LED at each cell of the 11-wide grid, or -1 for a cell without one. */
  const LutRows: seq<seq<int>> := [
    [-1, -1, -1, 0, -1, 1, -1, 2, -1, -1, -1],
    [-1, -1, 6, -1, 5, -1, 4, -1, 3, -1, -1],
    [-1, -1, 7, -1, 8, -1, 9, -1, 10, -1, -1],
    [-1, 15, -1, 14, -1, 13, -1, 12, -1, 11, -1],
    [-1, 16, -1, 17, -1, 18, -1, 19, -1, 20, -1],
    [26, -1, 25, -1, 24, -1, 23, -1, 22, -1, 21],
    [27, -1, 28, -1, 29, -1, 30, -1, 31, -1, 32],
    [-1, 37, -1, 36, -1, 35, -1, 34, -1, 33, -1],
    [-1, 38, -1, 39, -1, 40, -1, 41, -1, 42, -1],
    [-1, -1, 46, -1, 45, -1, 44, -1, 43, -1, -1],
    [-1, -1, 47, -1, 48, -1, 49, -1, 50, -1, -1],
    [-1, -1, -1, 53, -1, 52, -1, 51, -1, -1, -1]
  ]

  /** The entry of the table at column `x` of row `y`. */
  function LutAt(x: int, y: int): int
    requires 0 <= x < Width && 0 <= y < Height
  {
    LutRows[y][x]
  }

  /** `LUT[p]`: the table as the flat array of `Width * Height` entries, row after row. */
  function Lut(p: int): (led: int)
    requires 0 <= p < Width * Height
    ensures led == LutAt(p % Width, p / Width)
  {
    LutRows[p / Width][p % Width]
  }

  /** The flat index `y*Width + x` is column `x` of row `y`. */
  lemma LutFlatIndex(x: int, y: int)
    requires 0 <= x < Width && 0 <= y < Height
    ensures 0 <= y * Width + x < Width * Height && Lut(y * Width + x) == LutAt(x, y)
    ensures (y * Width + x) % Width == x && (y * Width + x) / Width == y
  {
  }

  /** The cell of each LED, as (column, row), six LEDs to a line: the inverse of the table. */
  const CellRows: seq<seq<(int, int)>> := [
    [(3, 0), (5, 0), (7, 0), (8, 1), (6, 1), (4, 1)],
    [(2, 1), (2, 2), (4, 2), (6, 2), (8, 2), (9, 3)],
    [(7, 3), (5, 3), (3, 3), (1, 3), (1, 4), (3, 4)],
    [(5, 4), (7, 4), (9, 4), (10, 5), (8, 5), (6, 5)],
    [(4, 5), (2, 5), (0, 5), (0, 6), (2, 6), (4, 6)],
    [(6, 6), (8, 6), (10, 6), (9, 7), (7, 7), (5, 7)],
    [(3, 7), (1, 7), (1, 8), (3, 8), (5, 8), (7, 8)],
    [(9, 8), (8, 9), (6, 9), (4, 9), (2, 9), (2, 10)],
    [(4, 10), (6, 10), (8, 10), (7, 11), (5, 11), (3, 11)]
  ]

  function Cell(led: int): (int, int)
    requires 0 <= led < LedCount
  {
    CellRows[led / 6][led % 6]
  }

  predicate InGrid(c: (int, int))
  {
    0 <= c.0 < Width && 0 <= c.1 < Height
  }

  /** LED `led`'s cell lies on the grid and holds `led`. */
  predicate CellHolds(led: int)
  {
    0 <= led < LedCount && InGrid(Cell(led)) && LutAt(Cell(led).0, Cell(led).1) == led
  }

  /** Flat entry `p` is -1, or an LED whose cell is that entry. */
  predicate EntryNamesCell(p: int)
  {
    0 <= p < Width * Height && (Lut(p) == -1 || (0 <= Lut(p) < LedCount && Cell(Lut(p)) == (p % Width, p / Width)))
  }

  /** `P` holds at every integer from `lo` up to, not including, `hi`, checked one at a time. */
  predicate Chain(P: int -> bool, lo: int, hi: int)
    decreases hi - lo
  {
    lo >= hi || (P(lo) && Chain(P, lo + 1, hi))
  }

  lemma {:induction false} ChainAll(P: int -> bool, lo: int, hi: int)
    requires Chain(P, lo, hi)
    ensures forall k :: lo <= k < hi ==> P(k)
    decreases hi - lo
  {
    if lo < hi {
      ChainAll(P, lo + 1, hi);
    }
  }

  lemma {:induction false} ChainJoin(P: int -> bool, lo: int, mid: int, hi: int)
    requires lo <= mid <= hi && Chain(P, lo, mid) && Chain(P, mid, hi)
    ensures Chain(P, lo, hi)
    decreases mid - lo
  {
    if lo < mid {
      ChainJoin(P, lo + 1, mid, hi);
    }
  }

  lemma CellsChecked0()
    ensures Chain(CellHolds, 0, 6)
  {
    assert Chain(CellHolds, 3, 6);
  }

  lemma CellsChecked6()
    ensures Chain(CellHolds, 6, 12)
  {
    assert Chain(CellHolds, 9, 12);
  }

  lemma CellsChecked12()
    ensures Chain(CellHolds, 12, 18)
  {
    assert Chain(CellHolds, 15, 18);
  }

  lemma CellsChecked18()
    ensures Chain(CellHolds, 18, 24)
  {
    assert Chain(CellHolds, 21, 24);
  }

  lemma CellsChecked24()
    ensures Chain(CellHolds, 24, 30)
  {
    assert Chain(CellHolds, 27, 30);
  }

  lemma CellsChecked30()
    ensures Chain(CellHolds, 30, 36)
  {
    assert Chain(CellHolds, 33, 36);
  }

  lemma CellsChecked36()
    ensures Chain(CellHolds, 36, 42)
  {
    assert Chain(CellHolds, 39, 42);
  }

  lemma CellsChecked42()
    ensures Chain(CellHolds, 42, 48)
  {
    assert Chain(CellHolds, 45, 48);
  }

  lemma CellsChecked48()
    ensures Chain(CellHolds, 48, 54)
  {
    assert Chain(CellHolds, 51, 54);
  }

  /** The inverse table, LED by LED. */
  lemma CellsChecked()
    ensures forall led :: 0 <= led < LedCount ==> CellHolds(led)
  {
    CellsChecked0();
    CellsChecked6();
    CellsChecked12();
    CellsChecked18();
    CellsChecked24();
    CellsChecked30();
    CellsChecked36();
    CellsChecked42();
    CellsChecked48();
    ChainJoin(CellHolds, 42, 48, 54);
    ChainJoin(CellHolds, 36, 42, 54);
    ChainJoin(CellHolds, 30, 36, 54);
    ChainJoin(CellHolds, 24, 30, 54);
    ChainJoin(CellHolds, 18, 24, 54);
    ChainJoin(CellHolds, 12, 18, 54);
    ChainJoin(CellHolds, 6, 12, 54);
    ChainJoin(CellHolds, 0, 6, 54);
    ChainAll(CellHolds, 0, LedCount);
  }

  lemma EntriesChecked0()
    ensures Chain(EntryNamesCell, 0, 11)
  {
    assert Chain(EntryNamesCell, 6, 11);
  }

  lemma EntriesChecked11()
    ensures Chain(EntryNamesCell, 11, 22)
  {
    assert Chain(EntryNamesCell, 17, 22);
  }

  lemma EntriesChecked22()
    ensures Chain(EntryNamesCell, 22, 33)
  {
    assert Chain(EntryNamesCell, 28, 33);
  }

  lemma EntriesChecked33()
    ensures Chain(EntryNamesCell, 33, 44)
  {
    assert Chain(EntryNamesCell, 39, 44);
  }

  lemma EntriesChecked44()
    ensures Chain(EntryNamesCell, 44, 55)
  {
    assert Chain(EntryNamesCell, 50, 55);
  }

  lemma EntriesChecked55()
    ensures Chain(EntryNamesCell, 55, 66)
  {
    assert Chain(EntryNamesCell, 61, 66);
  }

  lemma EntriesChecked66()
    ensures Chain(EntryNamesCell, 66, 77)
  {
    assert Chain(EntryNamesCell, 72, 77);
  }

  lemma EntriesChecked77()
    ensures Chain(EntryNamesCell, 77, 88)
  {
    assert Chain(EntryNamesCell, 83, 88);
  }

  lemma EntriesChecked88()
    ensures Chain(EntryNamesCell, 88, 99)
  {
    assert Chain(EntryNamesCell, 94, 99);
  }

  lemma EntriesChecked99()
    ensures Chain(EntryNamesCell, 99, 110)
  {
    assert Chain(EntryNamesCell, 105, 110);
  }

  lemma EntriesChecked110()
    ensures Chain(EntryNamesCell, 110, 121)
  {
    assert Chain(EntryNamesCell, 116, 121);
  }

  lemma EntriesChecked121()
    ensures Chain(EntryNamesCell, 121, 132)
  {
    assert Chain(EntryNamesCell, 127, 132);
  }

  /** The table, entry by entry. */
  lemma EntriesChecked()
    ensures forall p :: 0 <= p < Width * Height ==> EntryNamesCell(p)
  {
    EntriesChecked0();
    EntriesChecked11();
    EntriesChecked22();
    EntriesChecked33();
    EntriesChecked44();
    EntriesChecked55();
    EntriesChecked66();
    EntriesChecked77();
    EntriesChecked88();
    EntriesChecked99();
    EntriesChecked110();
    EntriesChecked121();
    ChainJoin(EntryNamesCell, 110, 121, 132);
    ChainJoin(EntryNamesCell, 99, 110, 132);
    ChainJoin(EntryNamesCell, 88, 99, 132);
    ChainJoin(EntryNamesCell, 77, 88, 132);
    ChainJoin(EntryNamesCell, 66, 77, 132);
    ChainJoin(EntryNamesCell, 55, 66, 132);
    ChainJoin(EntryNamesCell, 44, 55, 132);
    ChainJoin(EntryNamesCell, 33, 44, 132);
    ChainJoin(EntryNamesCell, 22, 33, 132);
    ChainJoin(EntryNamesCell, 11, 22, 132);
    ChainJoin(EntryNamesCell, 0, 11, 132);
    ChainAll(EntryNamesCell, 0, Width * Height);
  }

  /**
    `Cell` inverts the table: every entry is -1 or an LED numbered below 54
    whose cell is that entry, and every LED's cell is on the grid and holds it.
   */
  lemma CellInvertsLut()
    ensures forall x, y :: 0 <= x < Width && 0 <= y < Height ==>
              LutAt(x, y) == -1 || (0 <= LutAt(x, y) < LedCount && Cell(LutAt(x, y)) == (x, y))
    ensures forall led :: 0 <= led < LedCount ==> InGrid(Cell(led)) && LutAt(Cell(led).0, Cell(led).1) == led
  {
    forall x, y | 0 <= x < Width && 0 <= y < Height
      ensures LutAt(x, y) == -1 || (0 <= LutAt(x, y) < LedCount && Cell(LutAt(x, y)) == (x, y))
    {
      EntryAt(x, y);
    }
    CellsChecked();
    forall led | 0 <= led < LedCount
      ensures InGrid(Cell(led)) && LutAt(Cell(led).0, Cell(led).1) == led
    {
      assert CellHolds(led);
    }
  }

  lemma EntryAt(x: int, y: int)
    requires 0 <= x < Width && 0 <= y < Height
    ensures LutAt(x, y) == -1 || (0 <= LutAt(x, y) < LedCount && Cell(LutAt(x, y)) == (x, y))
  {
    LutFlatIndex(x, y);
    EntriesChecked();
    assert EntryNamesCell(y * Width + x);
  }

  /**
    Every entry of the table is -1 or a valid index into the panel's 54 LEDs,
    and no LED appears at two cells (with `CellInvertsLut`, each LED appears
    exactly once).
   */
  lemma LutNamesEachLedOnce()
    ensures forall x, y :: 0 <= x < Width && 0 <= y < Height ==> LutAt(x, y) == -1 || 0 <= LutAt(x, y) < LedCount
    ensures forall x, y, x', y' :: 0 <= x < Width && 0 <= y < Height && 0 <= x' < Width && 0 <= y' < Height
              && LutAt(x, y) != -1 && LutAt(x, y) == LutAt(x', y')
              ==> x == x' && y == y'
  {
    forall x, y | 0 <= x < Width && 0 <= y < Height
      ensures LutAt(x, y) == -1 || 0 <= LutAt(x, y) < LedCount
    {
      EntryAt(x, y);
    }
    forall x, y, x', y' | 0 <= x < Width && 0 <= y < Height && 0 <= x' < Width && 0 <= y' < Height
        && LutAt(x, y) != -1 && LutAt(x, y) == LutAt(x', y')
      ensures x == x' && y == y'
    {
      EntryAt(x, y);
      EntryAt(x', y');
    }
  }

  // ---------------------------------------------------------------------------
  // The panel

  /** One pixel of the drawn image, as `RGBA()` reports it: four channels of 16 bits. */
  datatype Pixel = Pixel(r: bv16, g: bv16, b: bv16, a: bv16)

  /** The LED colour for a pixel: the high byte of each channel, with alpha used as white. */
  function ToLed(p: Pixel): Rgbw
  {
    Rgbw((p.r >> 8) as bv8, (p.g >> 8) as bv8, (p.b >> 8) as bv8, (p.a >> 8) as bv8)
  }

  /** An 8-bit channel widened to 16 bits the way Go's colours do it, by repeating the byte. */
  function Widen(c: bv8): bv16
  {
    ((c as bv16) << 8) | (c as bv16)
  }

  /**
    Taking the high byte undoes the widening of an 8-bit colour, and an opaque
    pixel always turns the white channel fully on.
   */
  lemma ToLedRoundTrip(r: bv8, g: bv8, b: bv8, p: Pixel)
    ensures ToLed(Pixel(Widen(r), Widen(g), Widen(b), 0xffff)) == Rgbw(r, g, b, 255)
    ensures p.a == 0xffff ==> ToLed(p).w == 255
  {
  }

  /** `HexagonPanel`: its grid size and its LEDs. The LED driver is not part of this model. */
  class HexagonPanel {
    const width: int
    const height: int
    const leds: array<Rgbw>

    predicate Valid()
    {
      width == Width && height == Height && leds.Length == LedCount
    }

    constructor ()
      ensures Valid() && fresh(leds)
      ensures forall i :: 0 <= i < leds.Length ==> leds[i] == Off
    {
      width := Width;
      height := Height;
      leds := new Rgbw[LedCount](_ => Off);
    }

    /**
      `DrawToPanel`: for each cell of the grid, row by row, the LED the table
      names there takes the colour of that pixel. Each LED takes the colour of
      the pixel at its cell.
     */
    method DrawToPanel(image: (int, int) -> Pixel)
      requires Valid()
      modifies leds
      ensures forall led :: 0 <= led < LedCount ==> leds[led] == ToLed(image(Cell(led).0, Cell(led).1))
    {
      var y := 0;
      while y < height
        invariant 0 <= y <= height
        invariant Painted(leds[..], old(leds[..]), image, 0, y)
      {
        var x := 0;
        while x < width
          invariant 0 <= x <= width
          invariant Painted(leds[..], old(leds[..]), image, x, y)
        {
          LutFlatIndex(x, y);
          PaintStep(leds[..], old(leds[..]), image, x, y);
          var index := Lut(y * width + x);
          if index != -1 {
            leds[index] := ToLed(image(x, y));
          }
          x := x + 1;
        }
        RowDone(leds[..], old(leds[..]), image, y);
        y := y + 1;
      }
      PanelDone(leds[..], old(leds[..]), image);
    }

    /** The 24-bit frame `renderHexagonFrame` hands to the driver. */
    method Frame() returns (frame: seq<bv32>)
      requires Valid()
      ensures frame == Frame24(leds[..])
    {
      var data := new bv32[leds.Length];
      for i := 0 to leds.Length
        invariant forall j :: 0 <= j < i ==> data[j] == Pack24(leds[j])
      {
        data[i] := Pack24(leds[i]);
      }
      frame := data[..];
    }

    /**
      The first animation of `Run`: LED by LED, turn the LED full white and send
      the 32-bit frame, then turn every LED off and send an all-zero frame.
     */
    method GrowWhite() returns (frames: seq<seq<bv32>>)
      requires Valid()
      modifies leds
      ensures |frames| == LedCount + 1
      ensures forall i :: 0 <= i < LedCount ==> frames[i] == Frame32(WhiteUpTo(i, old(leds[..])))
      ensures frames[LedCount] == seq(LedCount, _ => 0)
      ensures forall i :: 0 <= i < LedCount ==> leds[i] == Off
    {
      frames := [];
      for i := 0 to leds.Length
        invariant |frames| == i
        invariant forall j :: 0 <= j < i ==> frames[j] == Frame32(WhiteUpTo(j, old(leds[..])))
        invariant forall j :: 0 <= j < leds.Length ==> leds[j] == if j < i then White else old(leds[j])
      {
        leds[i] := White;
        assert leds[..] == WhiteUpTo(i, old(leds[..]));
        var data := new bv32[leds.Length];
        for j := 0 to leds.Length
          invariant leds[..] == WhiteUpTo(i, old(leds[..]))
          invariant forall k :: 0 <= k < j ==> data[k] == Pack32(leds[k])
        {
          data[j] := Pack32(leds[j]);
        }
        assert data[..] == Frame32(WhiteUpTo(i, old(leds[..])));
        frames := frames + [data[..]];
      }
      for i := 0 to leds.Length
        invariant forall j :: 0 <= j < i ==> leds[j] == Off
      {
        leds[i] := Off;
      }
      var cleared := new bv32[leds.Length](_ => 0);
      frames := frames + [cleared[..]];
    }
  }

  /** The cell has been visited once the loops reach column `x` of row `y`. */
  predicate Drawn(c: (int, int), x: int, y: int)
  {
    c.1 < y || (c.1 == y && c.0 < x)
  }

  /** `now` holds the pixel of every LED whose cell has been visited, and `before` the colour of every other LED. */
  predicate Painted(now: seq<Rgbw>, before: seq<Rgbw>, image: (int, int) -> Pixel, x: int, y: int)
  {
    |now| == LedCount && |before| == LedCount
    && forall led :: 0 <= led < LedCount ==>
         now[led] == if Drawn(Cell(led), x, y) then ToLed(image(Cell(led).0, Cell(led).1)) else before[led]
  }

  /** Visiting cell (`x`, `y`) paints the LED the table names there, if any, and moves on one column. */
  lemma PaintStep(now: seq<Rgbw>, before: seq<Rgbw>, image: (int, int) -> Pixel, x: int, y: int)
    requires 0 <= x < Width && 0 <= y < Height && Painted(now, before, image, x, y)
    ensures LutAt(x, y) == -1 ==> Painted(now, before, image, x + 1, y)
    ensures LutAt(x, y) != -1 ==>
              0 <= LutAt(x, y) < LedCount && Painted(now[LutAt(x, y) := ToLed(image(x, y))], before, image, x + 1, y)
  {
    CellAt(x, y);
  }

  /** A finished row hands over to the start of the next, since every LED's cell is on the grid. */
  lemma RowDone(now: seq<Rgbw>, before: seq<Rgbw>, image: (int, int) -> Pixel, y: int)
    requires Painted(now, before, image, Width, y)
    ensures Painted(now, before, image, 0, y + 1)
  {
    CellsChecked();
  }

  /** Once every row is visited, every LED holds the pixel at its cell. */
  lemma PanelDone(now: seq<Rgbw>, before: seq<Rgbw>, image: (int, int) -> Pixel)
    requires Painted(now, before, image, 0, Height)
    ensures forall led :: 0 <= led < LedCount ==> now[led] == ToLed(image(Cell(led).0, Cell(led).1))
  {
    CellsChecked();
  }

  /** The LEDs whose cell is (`x`, `y`): the one the table names there, or none when the entry is -1. */
  lemma CellAt(x: int, y: int)
    requires 0 <= x < Width && 0 <= y < Height
    ensures LutAt(x, y) == -1 || 0 <= LutAt(x, y) < LedCount
    ensures forall led :: 0 <= led < LedCount ==> (Cell(led) == (x, y) <==> led == LutAt(x, y))
  {
    EntryAt(x, y);
    CellsChecked();
    forall led | 0 <= led < LedCount
      ensures Cell(led) == (x, y) <==> led == LutAt(x, y)
    {
      assert CellHolds(led);
    }
  }

  /** The LEDs after step `i` of the first animation: LEDs up to `i` white, the rest as they were. */
  function WhiteUpTo(i: int, leds: seq<Rgbw>): (r: seq<Rgbw>)
    ensures |r| == |leds|
  {
    seq(|leds|, j requires 0 <= j < |leds| => if j <= i then White else leds[j])
  }

  /**
    Step `i` of the first animation differs from step `i - 1` only in LED `i`,
    which is white; LEDs above `i` are still as they were; and the all-zero
    frame at the end is exactly the frame of the LEDs turned off.
   */
  lemma GrowWhiteSteps(leds: seq<Rgbw>, i: int)
    requires 0 < i < |leds|
    ensures WhiteUpTo(i, leds) == WhiteUpTo(i - 1, leds)[i := White]
    ensures forall j :: i < j < |leds| ==> WhiteUpTo(i, leds)[j] == leds[j]
    ensures Frame32(seq(|leds|, _ => Off)) == seq(|leds|, _ => 0)
  {
  }

  /** `NewHexagonPanel`: fails when the LED driver cannot be created, otherwise a panel with all 54 LEDs off. */
  method NewHexagonPanel(driverReady: bool) returns (panel: HexagonPanel?)
    ensures driverReady <==> panel != null
    ensures panel != null ==> fresh(panel) && fresh(panel.leds) && panel.Valid()
                              && forall i :: 0 <= i < LedCount ==> panel.leds[i] == Off
  {
    if !driverReady {
      return null;
    }
    panel := new HexagonPanel();
  }
}
