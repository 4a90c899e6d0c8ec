/** The arithmetic behind the progress LEDs and the OLED drawing helpers. */
module Display {
  import opened Bits

  const OLED_DISPLAY_WIDTH: int := 96
  const OLED_DISPLAY_HEIGHT: int := 64
  /** Pixel width of one character of the OLED font. */
  const CHAR_WIDTH: int := 5

  /** LED-bar pattern with only LED `pos` lit: `(uint16_t)0x01 << pos`, the
      whole 16-LED state handed to the LED driver (every other LED off). */
  function LedMask(pos: nat): (mask: bv16)
    requires pos < 16
    ensures mask != 0 && mask & (mask - 1) == 0
    ensures mask >> pos == 1
  {
    1 << pos
  }

  /** Integer division truncating toward zero, as C's `/` on `int`: the
      remainder `a - q * b` is smaller than `b` in magnitude and has the sign
      of the dividend. */
  function CDiv(a: int, b: int): (q: int)
    requires b > 0
    ensures a >= 0 ==> 0 <= a - q * b < b
    ensures a < 0 ==> -b < a - q * b <= 0
  {
    if a >= 0 then a / b else -((-a) / b)
  }

  /** Left edge of a string drawn centred: `(96 - len * 5) / 2` in `int`,
      stored into a `uint8_t`. A string that fits the display gets left and
      right margins that differ by at most one pixel, the extra pixel on the
      right. A string too wide for the display has a negative offset, which
      the conversion to `uint8_t` turns into a column right of the display
      (for strings of up to 83 characters). */
  function CenteredX(text: string): (x: uint8)
    ensures CHAR_WIDTH * |text| <= OLED_DISPLAY_WIDTH ==>
              var right := OLED_DISPLAY_WIDTH - CHAR_WIDTH * |text| - x;
              0 <= right - x <= 1
    ensures OLED_DISPLAY_WIDTH < CHAR_WIDTH * |text| <= OLED_DISPLAY_WIDTH + 2 * (TWO_8 - OLED_DISPLAY_WIDTH) - 1 ==>
              x >= OLED_DISPLAY_WIDTH
  {
    ToUint8(CDiv(OLED_DISPLAY_WIDTH - |text| * CHAR_WIDTH, 2))
  }

  /** The pixel test of `fill_circle`: offset (x, y) from the centre is painted
      when x*x + y*y <= r*r. */
  predicate InDisc(x: int, y: int, r: int) {
    x * x + y * y <= r * r
  }

  /** Every point the test accepts lies in the bounding box the fill loops
      scan. */
  lemma {:induction false} DiscInBoundingBox(x: int, y: int, r: int)
    requires r >= 0 && InDisc(x, y, r)
    ensures -r <= x <= r && -r <= y <= r
  {
    SquareBound(x, y, r);
    SquareBound(y, x, r);
  }

  lemma SquareBound(x: int, y: int, r: int)
    requires r >= 0 && x * x + y * y <= r * r
    ensures -r <= x <= r
  {
    var a := if x < 0 then -x else x;
    assert (a - r) * (a + r) == a * a - r * r <= 0;
    if a + r > 0 {
      FactorLess(a - r, 1, a + r);
    }
  }

  /** Pixel offsets painted in row `y` while the column runs from `-r` up to
      (not including) `x`, in painting order. */
  function RowPixels(r: int, y: int, x: int): seq<(int, int)>
    decreases x + r
  {
    if x <= -r then []
    else RowPixels(r, y, x - 1) + (if InDisc(x - 1, y, r) then [(x - 1, y)] else [])
  }

  /** Pixel offsets painted by the rows from `-r` up to (not including) `y`. */
  function DiscPixels(r: int, y: int): seq<(int, int)>
    decreases y + r
  {
    if y <= -r then [] else DiscPixels(r, y - 1) + RowPixels(r, y - 1, r + 1)
  }

  /** `fill_circle` as its two nested scans: every offset of the square
      `-radius..radius`, row by row, that passes the disc test is painted
      at the centre plus that offset. */
  method FillCircle(x0: uint8, y0: uint8, radius: uint8) returns (painted: seq<(int, int)>)
    ensures |painted| == |DiscPixels(radius, radius + 1)|
    ensures forall k :: 0 <= k < |painted| ==>
              painted[k] == (x0 + DiscPixels(radius, radius + 1)[k].0, y0 + DiscPixels(radius, radius + 1)[k].1)
  {
    ghost var offsets: seq<(int, int)> := [];
    painted := [];
    var y := -(radius as int);
    while y <= radius
      invariant -(radius as int) <= y <= radius + 1
      invariant offsets == DiscPixels(radius, y)
      invariant |painted| == |offsets|
      invariant forall k :: 0 <= k < |painted| ==> painted[k] == (x0 + offsets[k].0, y0 + offsets[k].1)
    {
      var x := -(radius as int);
      while x <= radius
        invariant -(radius as int) <= x <= radius + 1
        invariant offsets == DiscPixels(radius, y) + RowPixels(radius, y, x)
        invariant |painted| == |offsets|
        invariant forall k :: 0 <= k < |painted| ==> painted[k] == (x0 + offsets[k].0, y0 + offsets[k].1)
      {
        if x * x + y * y <= radius * radius {
          painted := painted + [(x0 + x, y0 + y)];
          offsets := offsets + [(x, y)];
        }
        x := x + 1;
      }
      y := y + 1;
    }
  }

  /** A row scan paints exactly the offsets of that row, left of the
      current column, that pass the disc test. */
  lemma {:induction false} InRowPixels(r: int, y: int, x: int, a: int, b: int)
    ensures (a, b) in RowPixels(r, y, x) <==> b == y && -r <= a < x && InDisc(a, b, r)
    decreases x + r
  {
    if x > -r {
      InRowPixels(r, y, x - 1, a, b);
    }
  }

  /** The rows scanned so far paint exactly the offsets of the square's
      rows above the current one that pass the disc test. */
  lemma {:induction false} InDiscPixels(r: int, y: int, a: int, b: int)
    ensures (a, b) in DiscPixels(r, y) <==> -r <= b < y && -r <= a <= r && InDisc(a, b, r)
    decreases y + r
  {
    if y > -r {
      InDiscPixels(r, y - 1, a, b);
      InRowPixels(r, y - 1, r + 1, a, b);
    }
  }

  /** `fill_circle` paints the whole disc and nothing else: an offset is
      painted exactly when it passes the disc test. */
  lemma PaintedIsDisc(r: nat, a: int, b: int)
    ensures (a, b) in DiscPixels(r, r + 1) <==> InDisc(a, b, r)
  {
    InDiscPixels(r, r + 1, a, b);
    if InDisc(a, b, r) {
      DiscInBoundingBox(a, b, r);
    }
  }
}
