/** The framebuffer of src/canvas.rs: `height` rows of `width` colours,
    addressed with y growing upwards, so y = 0 is the last row of the
    buffer. The buffer is an `array2` whose first index is the row. */
module Canvases {
  import opened Colors

  /** usize and isize are 64 bits wide. */
  const UsizeModulus: int := 0x1_0000_0000_0000_0000
  const IsizeMax: int := 0x7FFF_FFFF_FFFF_FFFF
  const IsizeMin: int := -0x8000_0000_0000_0000

  /** `v as usize` for an isize: the two's-complement bit pattern read
      unsigned, so a negative value becomes a huge one. */
  function AsUsize(v: int): (u: nat)
    ensures u < UsizeModulus
    ensures 0 <= v < UsizeModulus ==> u == v
    ensures -UsizeModulus <= v < 0 ==> u == v + UsizeModulus
  {
    v % UsizeModulus
  }

  /** What a write to (x, y) does: nothing, a store into one cell, or a
      panic (an index out of range or an unsigned underflow). */
  datatype Outcome = Ignored | Stored(row: int, col: int) | Panics

  /** `write` as the source has it: the guard lets x == width and
      y == height through. The row `height - y - 1` is usize arithmetic,
      which panics below zero; the column then indexes a row of `width`. */
  function WriteAsWritten(width: nat, height: nat, x: nat, y: nat): Outcome
  {
    if x > width || y > height then Ignored
    else if height - y - 1 < 0 then Panics
    else if x >= width then Panics
    else Stored(height - y - 1, x)
  }

  /** `write` as its comment intends: every out-of-range write is ignored,
      every other one stores into row `height - y - 1`, column x. */
  function WriteTarget(width: nat, height: nat, x: nat, y: nat): (o: Outcome)
    ensures o != Panics
    ensures o.Stored? <==> x < width && y < height
    ensures o.Stored? ==> 0 <= o.row < height && 0 <= o.col < width
  {
    if x >= width || y >= height then Ignored
    else Stored(height - y - 1, x)
  }

  // ---- The off-by-one in the guard ----

  /** x == width passes the guard and indexes one past the end of a row. */
  lemma AsWrittenColumnPanics()
    ensures WriteAsWritten(30, 30, 30, 0) == Panics
    ensures WriteTarget(30, 30, 30, 0) == Ignored
  {
  }

  /** y == height passes the guard and `height - y - 1` underflows. */
  lemma AsWrittenRowPanics()
    ensures WriteAsWritten(30, 30, 0, 30) == Panics
    ensures WriteTarget(30, 30, 0, 30) == Ignored
  {
  }

  /** The as-written guard panics on exactly the boundary, and agrees with
      the intended rule everywhere else. */
  lemma AsWrittenDiffersOnlyOnBoundary(width: nat, height: nat, x: nat, y: nat)
    ensures WriteAsWritten(width, height, x, y) == Panics
        <==> (x <= width && y <= height && (x == width || y == height))
    ensures WriteAsWritten(width, height, x, y) != Panics
        ==> WriteAsWritten(width, height, x, y) == WriteTarget(width, height, x, y)
  {
  }

  // ---- Addressing ----

  /** Distinct in-range coordinates land in distinct cells, and the cell
      gives the coordinates back: y = height - 1 - row, x = col. */
  lemma WriteTargetInjective(width: nat, height: nat, x: nat, y: nat, x': nat, y': nat)
    requires x < width && y < height && x' < width && y' < height
    requires WriteTarget(width, height, x, y) == WriteTarget(width, height, x', y')
    ensures x == x' && y == y'
  {
  }

  lemma WriteTargetInverse(width: nat, height: nat, x: nat, y: nat)
    requires x < width && y < height
    ensures var o := WriteTarget(width, height, x, y);
      o.col == x && height - 1 - o.row == y
  {
  }

  /** y = 0 is the bottom row of the picture, the last row of the buffer. */
  lemma BottomRow(width: nat, height: nat, x: nat)
    requires x < width && 0 < height
    ensures WriteTarget(width, height, x, 0) == Stored(height - 1, x)
  {
  }

  /** The cell `write_origin` aims at: (x, y) measured from the middle of the
      canvas, the middle found by integer halving. */
  function OriginTarget(width: nat, height: nat, x: int, y: int): (o: Outcome)
    requires width <= IsizeMax && height <= IsizeMax
    requires IsizeMin <= x <= IsizeMax && IsizeMin <= y <= IsizeMax
    ensures o != Panics
    ensures o.Stored? ==> 0 <= o.row < height && 0 <= o.col < width
  {
    WriteTarget(width, height, AsUsize(width / 2 + x), AsUsize(height / 2 + y))
  }

  /** An origin-relative write lands on the canvas exactly when the shifted
      coordinates are within it; a negative shift becomes a huge usize that
      the guard rejects. */
  lemma OriginTargetRange(width: nat, height: nat, x: int, y: int)
    requires width <= IsizeMax && height <= IsizeMax
    requires IsizeMin <= x <= IsizeMax && IsizeMin <= y <= IsizeMax
    ensures OriginTarget(width, height, x, y).Stored?
        <==> (-(width / 2) <= x < width - width / 2 && -(height / 2) <= y < height - height / 2)
    ensures OriginTarget(width, height, x, y).Stored?
        ==> OriginTarget(width, height, x, y) == Stored(height - (height / 2 + y) - 1, width / 2 + x)
  {
    var u, v := width / 2 + x, height / 2 + y;
    if u < 0 {
      assert AsUsize(u) == u + UsizeModulus;
    }
    if v < 0 {
      assert AsUsize(v) == v + UsizeModulus;
    }
  }

  /** On a 30 x 30 canvas the origin is pixel (15, 15), i.e. row 14. */
  lemma OriginExample()
    ensures OriginTarget(30, 30, 0, 0) == Stored(14, 15)
    ensures OriginTarget(30, 30, -16, 0) == Ignored
  {
    OriginTargetRange(30, 30, -16, 0);
  }

  /** `write_origin` inherits the off-by-one: on a 30 x 30 canvas x = 15
      shifts to column 30, which the as-written guard lets through. */
  lemma AsWrittenOriginPanics()
    ensures WriteAsWritten(30, 30, AsUsize(30 / 2 + 15), AsUsize(30 / 2 + 0)) == Panics
    ensures OriginTarget(30, 30, 15, 0) == Ignored
  {
  }

  class Canvas {
    const width: nat
    const height: nat
    const pixels: array2<Color>

    /** The buffer holds `height` rows of `width` pixels. */
    ghost predicate Valid()
      reads this
    {
      pixels.Length0 == height && pixels.Length1 == width
      && width <= IsizeMax && height <= IsizeMax
    }

    /** `Canvas::new`: every pixel black. Buffers past isize::MAX elements
        cannot be allocated. */
    constructor(width: nat, height: nat)
      requires width <= IsizeMax && height <= IsizeMax
      ensures Valid() && this.width == width && this.height == height
      ensures fresh(pixels)
      ensures forall i, j :: 0 <= i < height && 0 <= j < width ==> pixels[i, j] == Black
    {
      this.width := width;
      this.height := height;
      pixels := new Color[height, width]((i, j) => Black);
    }

    /** `write` with the intended guard: the target cell of WriteTarget gets
        `color`, every other pixel keeps its colour; an out-of-range write
        changes nothing. */
    method Write(x: nat, y: nat, color: Color)
      requires Valid()
      modifies pixels
      ensures forall i, j :: 0 <= i < height && 0 <= j < width ==>
        pixels[i, j] == (if WriteTarget(width, height, x, y) == Stored(i, j) then color else old(pixels[i, j]))
    {
      if x >= width || y >= height {
        return;
      }
      var row := height - y - 1;
      pixels[row, x] := color;
    }

    /** `write_origin`: shifts (x, y) by half the canvas and writes there. */
    method WriteOrigin(x: int, y: int, color: Color)
      requires Valid()
      requires IsizeMin <= x <= IsizeMax && IsizeMin <= y <= IsizeMax
      modifies pixels
      ensures forall i, j :: 0 <= i < height && 0 <= j < width ==>
        pixels[i, j] == (if OriginTarget(width, height, x, y) == Stored(i, j) then color else old(pixels[i, j]))
    {
      var midX := width / 2;
      var midY := height / 2;
      Write(AsUsize(midX + x), AsUsize(midY + y), color);
    }
  }
}
