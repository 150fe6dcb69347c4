/** The shared simulation grid: its dimensions, the index of a
    coordinate, the 32-bit and 8-bit pixel planes, and packed RGB colours. */
module Screen {
  import opened Cells

  const GridWidth: int := 1024
  const GridHeight: int := 768
  const GridSize: int := GridWidth * GridHeight

  /** An 8-bit value (`Uint8`). */
  type byte = x: int | 0 <= x < 256

  /** The index of the coordinate (x, y) in the row-major grid. */
  function At(x: int, y: int): (i: int)
    ensures 0 <= x < GridWidth && 0 <= y < GridHeight ==>
      0 <= i < GridSize && i % GridWidth == x && i / GridWidth == y
  {
    y * GridWidth + x
  }

  /** Every grid index is the index of exactly one in-range coordinate. */
  lemma AtCovers(i: int)
    requires 0 <= i < GridSize
    ensures 0 <= i % GridWidth < GridWidth && 0 <= i / GridWidth < GridHeight
    ensures At(i % GridWidth, i / GridWidth) == i
  {
  }

  /** Two in-range coordinates share an index only if they are equal. */
  lemma AtInjective(x1: int, y1: int, x2: int, y2: int)
    requires 0 <= x1 < GridWidth && 0 <= y1 < GridHeight
    requires 0 <= x2 < GridWidth && 0 <= y2 < GridHeight
    ensures At(x1, y1) == At(x2, y2) <==> x1 == x2 && y1 == y2
  {
  }

  /** The two pixel planes the simulations draw into: `grid` holds 32-bit
      pixels and `grid8` holds 8-bit ones, both indexed by `At`. */
  class Planes {
    var grid: array<int>
    var grid8: array<byte>

    ghost predicate Valid()
      reads this, grid, grid8
    {
      grid.Length == GridSize && grid8.Length == GridSize &&
      (forall i :: 0 <= i < GridSize ==> 0 <= grid[i] < Two32)
    }

    constructor ()
      ensures Valid() && fresh(grid) && fresh(grid8)
      ensures forall i :: 0 <= i < GridSize ==> grid[i] == 0 && grid8[i] == 0
    {
      grid := new int[GridSize](_ => 0);
      grid8 := new byte[GridSize](_ => 0);
    }

    function Get(x: int, y: int): (c: int)
      requires Valid() && 0 <= x < GridWidth && 0 <= y < GridHeight
      reads this, grid, grid8
      ensures 0 <= c < Two32
    {
      grid[At(x, y)]
    }

    function Get8(x: int, y: int): (c: byte)
      requires Valid() && 0 <= x < GridWidth && 0 <= y < GridHeight
      reads this, grid, grid8
    {
      grid8[At(x, y)]
    }

    /** Store `color` at (x, y); no other pixel changes. */
    method Put(x: int, y: int, color: u32)
      requires Valid() && 0 <= x < GridWidth && 0 <= y < GridHeight
      modifies grid
      ensures Valid() && Get(x, y) == color
      ensures forall i :: 0 <= i < GridSize && i != At(x, y) ==> grid[i] == old(grid[i])
    {
      grid[At(x, y)] := color;
    }

    /** Store the 8-bit `color` at (x, y); no other pixel changes. */
    method Put8(x: int, y: int, color: byte)
      requires Valid() && 0 <= x < GridWidth && 0 <= y < GridHeight
      modifies grid8
      ensures Valid() && Get8(x, y) == color
      ensures forall i :: 0 <= i < GridSize && i != At(x, y) ==> grid8[i] == old(grid8[i])
    {
      grid8[At(x, y)] := color;
    }
  }

  /** `MAKE_RGB`: red in bits 16..23, green in 8..15, blue in 0..7. */
  function MakeRgb(r: byte, g: byte, b: byte): (c: int)
    ensures 0 <= c < 0x100_0000
    ensures ToUnsigned(c) == c
  {
    r * 0x1_0000 + g * 0x100 + b
  }

  /** The component at bit `shift` of a pixel, `0xFF & (pixel >> shift)`,
      for the three shifts the code uses. */
  function Component(pixel: u32, shift: int): (v: byte)
    requires shift == 0 || shift == 8 || shift == 16
  {
    var scale := if shift == 16 then 0x1_0000 else if shift == 8 then 0x100 else 1;
    pixel / scale % 0x100
  }

  /** Shifting and masking a packed colour gives back each component. */
  lemma {:induction false} MakeRgbComponents(r: byte, g: byte, b: byte)
    ensures Component(MakeRgb(r, g, b), 16) == r
    ensures Component(MakeRgb(r, g, b), 8) == g
    ensures Component(MakeRgb(r, g, b), 0) == b
  {
    var c := MakeRgb(r, g, b);
    assert c / 0x1_0000 == r;
    assert c / 0x100 == r * 0x100 + g;
  }

  const Red: int := MakeRgb(255, 0, 0)
  const Green: int := MakeRgb(0, 255, 0)
  const Blue: int := MakeRgb(0, 0, 255)
  const Black: int := 0

  /** The bit patterns of the three primaries, for the colours made by `|`. */
  const RedBits: bv32 := 0xFF_0000
  const GreenBits: bv32 := 0xFF00
  const BlueBits: bv32 := 0xFF

  const Yellow: int := MakeRgb(255, 255, 0)
  const White: int := MakeRgb(255, 255, 255)

  /** The primaries have the bits used here, and yellow and white are the
      bitwise ors `red|green` and `red|green|blue` that define them. */
  lemma ColourConstants()
    ensures Red == 0xFF_0000 && Green == 0xFF00 && Blue == 0xFF && Black == MakeRgb(0, 0, 0)
    ensures RedBits as int == Red && GreenBits as int == Green && BlueBits as int == Blue
    ensures Yellow == (RedBits | GreenBits) as int
    ensures White == (RedBits | GreenBits | BlueBits) as int
  {
    PrimaryValues();
    MixedValues();
    PrimaryBits();
    OrOfPrimaries();
  }

  lemma PrimaryValues()
    ensures Red == 0xFF_0000 && Green == 0xFF00 && Blue == 0xFF
  {
  }

  lemma MixedValues()
    ensures Yellow == 0xFF_FF00 && White == 0xFF_FFFF
  {
  }

  lemma PrimaryBits()
    ensures RedBits as int == 0xFF_0000 && GreenBits as int == 0xFF00 && BlueBits as int == 0xFF
  {
  }

  lemma OrOfPrimaries()
    ensures (RedBits | GreenBits) as int == 0xFF_FF00
    ensures (RedBits | GreenBits | BlueBits) as int == 0xFF_FFFF
  {
  }
}
