/** Cellular automata on the 8-bit plane: toggling cells, the "munching
    squares" pattern, Conway's Life on a torus, the Margolus block rule,
    and the 256-entry palette they are shown through. */
module Casdl {
  import opened Cells
  import opened Screen

  const Width: int := GridWidth
  const Height: int := GridHeight

  function B(v: byte): bv8 { v as bv8 }

  /** `v ^ 1` on a byte: bit 0 flips and the other bits stay. */
  function ToggleBit(v: byte): (r: byte)
    ensures r / 2 == v / 2 && r % 2 == 1 - v % 2
  {
    if v % 2 == 0 then v + 1 else v - 1
  }

  /** `toggle`: flip bit 0 of the cell at (x, y). */
  method Toggle(grid8: array<byte>, x: int, y: int)
    requires grid8.Length == GridSize && 0 <= x < Width && 0 <= y < Height
    modifies grid8
    ensures grid8[..] == old(grid8[..])[At(x, y) := ToggleBit(old(grid8[At(x, y)]))]
  {
    grid8[At(x, y)] := ToggleBit(grid8[At(x, y)]);
  }

  /** The single wrap `get_clipped` and `put_clipped` apply to a coordinate. */
  function Clip(z: int, dim: int): (r: int)
    requires 0 < dim && -dim <= z < 2 * dim
    ensures 0 <= r < dim && r == z % dim
  {
    if z < 0 then z + dim else if dim <= z then z - dim else z
  }

  /** `get_clipped`: a coordinate up to one grid off either edge reads the
      cell it is congruent to. */
  function GetClipped(g: seq<byte>, x: int, y: int): (v: byte)
    requires |g| == GridSize && -Width <= x < 2 * Width && -Height <= y < 2 * Height
    ensures v == g[At(x % Width, y % Height)]
  {
    g[At(Clip(x, Width), Clip(y, Height))]
  }

  /** `put_clipped`: the one cell written is the in-range cell congruent to
      (x, y). */
  method PutClipped(grid8: array<byte>, x: int, y: int, value: byte)
    requires grid8.Length == GridSize && -Width <= x < 2 * Width && -Height <= y < 2 * Height
    modifies grid8
    ensures grid8[..] == old(grid8[..])[At(x % Width, y % Height) := value]
  {
    grid8[At(Clip(x, Width), Clip(y, Height))] := value;
  }

  /** Reading back a clipped write gives the value written. */
  lemma {:induction false} PutThenGet(g: seq<byte>, x: int, y: int, value: byte)
    requires |g| == GridSize && -Width <= x < 2 * Width && -Height <= y < 2 * Height
    ensures GetClipped(g[At(x % Width, y % Height) := value], x, y) == value
  {
  }

  /** `sprinkle`: visiting the cells row by row, set the i-th visited cell to
      1 when `hit(i)`, the outcome of the random draw for that visit. */
  method Sprinkle(grid8: array<byte>, hit: nat -> bool)
    requires grid8.Length == GridSize
    modifies grid8
    ensures forall i :: 0 <= i < GridSize ==> grid8[i] == if hit(i) then 1 else old(grid8[i])
  {
    var y := 0;
    while y < Height
      invariant 0 <= y <= Height
      invariant forall i :: 0 <= i < GridSize ==>
        grid8[i] == if i < y * Width && hit(i) then 1 else old(grid8[i])
    {
      var x := 0;
      while x < Width
        invariant 0 <= x <= Width
        invariant forall i :: 0 <= i < GridSize ==>
          grid8[i] == if i < y * Width + x && hit(i) then 1 else old(grid8[i])
      {
        if hit(At(x, y)) {
          grid8[At(x, y)] := 1;
        }
        x := x + 1;
      }
      y := y + 1;
    }
  }

  /** `x ^ n` for a column and a byte. */
  function XorColumn(x: int, n: byte): (r: int)
    requires 0 <= x < Width
    ensures 0 <= r < Width
  {
    ((x as bv16) ^ (n as bv16)) as int
  }

  /** The cells `munch_step` writes in frame `frame`: in column x, the row
      `(x ^ n) mod Height`, where `n` is the low byte of the frame. */
  predicate Munched(i: int, n: byte)
    requires 0 <= i < GridSize
  {
    i / Width == XorColumn(i % Width, n) % Height
  }

  /** `munch_step`: write the low byte `n` of the frame number at
      (x, x ^ n) in every column, and nothing else. */
  method MunchStep(grid8: array<byte>, frame: int)
    requires grid8.Length == GridSize
    modifies grid8
    ensures forall i :: 0 <= i < GridSize ==>
      grid8[i] == if Munched(i, frame % 256) then frame % 256 else old(grid8[i])
  {
    var n: byte := frame % 256;
    var x := 0;
    while x < Width
      invariant 0 <= x <= Width
      invariant forall i :: 0 <= i < GridSize ==>
        grid8[i] == if i % Width < x && Munched(i, n) then n else old(grid8[i])
    {
      PutClipped(grid8, x, XorColumn(x, n), n);
      x := x + 1;
    }
  }

  /** Each column gets exactly one munched cell. */
  lemma {:induction false} MunchOnePerColumn(n: byte, x: int)
    requires 0 <= x < Width
    ensures Munched(At(x, XorColumn(x, n) % Height), n)
    ensures forall y :: 0 <= y < Height && Munched(At(x, y), n) ==> y == XorColumn(x, n) % Height
  {
  }

  /** `life_update_cell`: the new state of the middle cell b2 of a 3x3
      neighbourhood. Only bit 0 of each cell counts (`v & 1`, which is
      `v % 2` on a byte). */
  function LifeUpdateCell(a1: int, a2: int, a3: int,
                          b1: int, b2: int, b3: int,
                          c1: int, c2: int, c3: int): byte
  {
    var sum := a1 % 2 + a2 % 2 + a3 % 2 + b1 % 2 + b3 % 2 + c1 % 2 + c2 % 2 + c3 % 2;
    var alive := B(b2 % 2);
    ((alive << 1) | (if (B(sum) | alive) == 3 then 1 else 0)) as int
  }

  /** The new cell keeps its old state in bit 1 and has bit 0 set exactly
      when Conway's rule (born with 3 live neighbours, surviving with 2 or 3)
      makes it live. */
  lemma {:induction false} LifeUpdateCellIsConway(a1: int, a2: int, a3: int,
                                                  b1: int, b2: int, b3: int,
                                                  c1: int, c2: int, c3: int)
    ensures var r := LifeUpdateCell(a1, a2, a3, b1, b2, b3, c1, c2, c3);
      r < 4 && r / 2 == b2 % 2
    ensures var n := a1 % 2 + a2 % 2 + a3 % 2 + b1 % 2 + b3 % 2 + c1 % 2 + c2 % 2 + c3 % 2;
      LifeUpdateCell(a1, a2, a3, b1, b2, b3, c1, c2, c3) % 2 == (if n == 3 || (n == 2 && b2 % 2 == 1) then 1 else 0)
  {
  }

  /** A grid row as a sequence, as `copy_row` copies it. */
  function Row(g: seq<int>, y: int): (r: seq<int>)
    requires |g| == GridSize && 0 <= y < Height
    ensures |r| == Width && forall x :: 0 <= x < Width ==> r[x] == g[At(x, y)]
  {
    g[y * Width..(y + 1) * Width]
  }

  /** The new value of column x given the rows above, at and below it. */
  function RowCell(in1: seq<int>, in2: seq<int>, in3: seq<int>, x: int): byte
    requires |in1| == Width && |in2| == Width && |in3| == Width && 0 <= x < Width
  {
    var l, r := (x - 1) % Width, (x + 1) % Width;
    LifeUpdateCell(in1[l], in1[x], in1[r], in2[l], in2[x], in2[r], in3[l], in3[x], in3[r])
  }

  /** The next state of cell (x, y), from the old rows around it. */
  function LifeCell(g: seq<int>, x: int, y: int): byte
    requires |g| == GridSize && 0 <= x < Width && 0 <= y < Height
  {
    RowCell(Row(g, (y - 1) % Height), Row(g, y), Row(g, (y + 1) % Height), x)
  }

  /** One Life generation of the whole torus, every cell computed from the
      old grid. */
  function LifeNext(g: seq<int>): (n: seq<int>)
    requires |g| == GridSize
    ensures |n| == GridSize
  {
    seq(GridSize, i => LifeCell(g, i % Width, (i / Width) % Height))
  }

  /** The number of live cells among the eight torus neighbours of (x, y). */
  function LiveNeighbours(g: seq<int>, x: int, y: int): int
    requires |g| == GridSize && 0 <= x < Width && 0 <= y < Height
  {
    var xl, xr := (x + Width - 1) % Width, (x + 1) % Width;
    var yu, yd := (y + Height - 1) % Height, (y + 1) % Height;
    g[At(xl, yu)] % 2 + g[At(x, yu)] % 2 + g[At(xr, yu)] % 2 +
    g[At(xl, y)] % 2 + g[At(xr, y)] % 2 +
    g[At(xl, yd)] % 2 + g[At(x, yd)] % 2 + g[At(xr, yd)] % 2
  }

  /** A generation is Conway's B3/S23 rule on the torus: a cell is live next
      exactly when it has three live neighbours, or two and is live now; and
      bit 1 remembers whether it was live. */
  lemma {:induction false} LifeCellIsConway(g: seq<int>, x: int, y: int)
    requires |g| == GridSize && 0 <= x < Width && 0 <= y < Height
    ensures var n := LiveNeighbours(g, x, y);
      LifeCell(g, x, y) % 2 == (if n == 3 || (n == 2 && g[At(x, y)] % 2 == 1) then 1 else 0)
    ensures LifeCell(g, x, y) / 2 == g[At(x, y)] % 2
  {
    assert (y - 1) % Height == (y + Height - 1) % Height;
    assert (x - 1) % Width == (x + Width - 1) % Width;
    var in1, in2, in3 := Row(g, (y - 1) % Height), Row(g, y), Row(g, (y + 1) % Height);
    var l, r := (x - 1) % Width, (x + 1) % Width;
    LifeUpdateCellIsConway(in1[l], in1[x], in1[r], in2[l], in2[x], in2[r], in3[l], in3[x], in3[r]);
  }

  /** `life_update_row`: write the next generation of a row into `out` at
      `off`, from the rows above (`in1`), at (`in2`) and below (`in3`),
      wrapping at both ends; the rolling variables hold the columns to the
      left and at the current position. */
  method LifeUpdateRow(out: array<byte>, off: int, in1: seq<int>, in2: seq<int>, in3: seq<int>)
    requires |in1| == Width && |in2| == Width && |in3| == Width
    requires 0 <= off && off + Width <= out.Length
    modifies out
    ensures RowWritten(old(out[..]), out[..], off, in1, in2, in3)
  {
    var i11, i10 := in1[0], in1[1];
    var i21, i20 := in2[0], in2[1];
    var i31, i30 := in3[0], in3[1];
    RowCellEnds(in1, in2, in3);
    out[off] := LifeUpdateCell(in1[Width - 1], i11, i10,
                               in2[Width - 1], i21, i20,
                               in3[Width - 1], i31, i30);
    var x := 1;
    while x < Width - 1
      invariant 1 <= x <= Width - 1
      invariant i11 == in1[x - 1] && i10 == in1[x]
      invariant i21 == in2[x - 1] && i20 == in2[x]
      invariant i31 == in3[x - 1] && i30 == in3[x]
      invariant forall k :: 0 <= k < x ==> out[off + k] == RowCell(in1, in2, in3, k)
      invariant out[..off] == old(out[..off]) && out[off + Width..] == old(out[off + Width..])
    {
      var j1, j2, j3 := in1[x + 1], in2[x + 1], in3[x + 1];
      RowCellInterior(in1, in2, in3, x);
      out[off + x] := LifeUpdateCell(i11, i10, j1,
                                     i21, i20, j2,
                                     i31, i30, j3);
      assert out[off + x] == RowCell(in1, in2, in3, x);
      i11, i10 := i10, j1;
      i21, i20 := i20, j2;
      i31, i30 := i30, j3;
      x := x + 1;
    }
    out[off + x] := LifeUpdateCell(i11, i10, in1[0],
                                   i21, i20, in2[0],
                                   i31, i30, in3[0]);
  }

  /** `after` is `before` with the Width cells at `off` rewritten to the
      next generation of the middle row `in2`. */
  ghost predicate RowWritten(before: seq<int>, after: seq<int>, off: int, in1: seq<int>, in2: seq<int>, in3: seq<int>)
    requires |in1| == Width && |in2| == Width && |in3| == Width
  {
    |after| == |before| && 0 <= off && off + Width <= |before| &&
    (forall x :: 0 <= x < Width ==> after[off + x] == RowCell(in1, in2, in3, x)) &&
    (forall i :: 0 <= i < |before| && !(off <= i < off + Width) ==> after[i] == before[i])
  }

  /** Away from the edges a cell's neighbours are the adjacent columns. */
  lemma {:induction false} RowCellInterior(in1: seq<int>, in2: seq<int>, in3: seq<int>, x: int)
    requires |in1| == Width && |in2| == Width && |in3| == Width && 0 < x < Width - 1
    ensures RowCell(in1, in2, in3, x) ==
      LifeUpdateCell(in1[x - 1], in1[x], in1[x + 1], in2[x - 1], in2[x], in2[x + 1], in3[x - 1], in3[x], in3[x + 1])
  {
    assert (x - 1) % Width == x - 1 && (x + 1) % Width == x + 1;
  }

  /** The first column's left neighbour is the last column, and the last
      column's right neighbour is the first. */
  lemma {:induction false} RowCellEnds(in1: seq<int>, in2: seq<int>, in3: seq<int>)
    requires |in1| == Width && |in2| == Width && |in3| == Width
    ensures RowCell(in1, in2, in3, 0) ==
      LifeUpdateCell(in1[Width - 1], in1[0], in1[1], in2[Width - 1], in2[0], in2[1], in3[Width - 1], in3[0], in3[1])
    ensures RowCell(in1, in2, in3, Width - 1) ==
      LifeUpdateCell(in1[Width - 2], in1[Width - 1], in1[0], in2[Width - 2], in2[Width - 1], in2[0],
                     in3[Width - 2], in3[Width - 1], in3[0])
  {
    assert (0 - 1) % Width == Width - 1 && (0 + 1) % Width == 1;
    assert (Width - 1 - 1) % Width == Width - 2 && (Width - 1 + 1) % Width == 0;
  }

  /** The cell at column x of row y in the next generation. */
  lemma {:induction false} LifeNextAt(g: seq<int>, x: int, y: int)
    requires |g| == GridSize && 0 <= x < Width && 0 <= y < Height
    ensures 0 <= y * Width + x < GridSize
    ensures LifeNext(g)[y * Width + x] == LifeCell(g, x, y)
  {
    var i := y * Width + x;
    assert i == At(x, y);
    assert i / Width == y && i % Width == x && y % Height == y;
    assert LifeNext(g)[i] == LifeCell(g, i % Width, (i / Width) % Height);
  }

  /** A row of the grid is still the old row while none of its cells has
      been written. */
  lemma {:induction false} RowUnchanged(cur: seq<int>, g: seq<int>, k: int, y: int)
    requires |cur| == GridSize && |g| == GridSize && 0 <= y < Height && 0 <= k <= y * Width
    requires cur[k..] == g[k..]
    ensures cur[y * Width..(y + 1) * Width] == Row(g, y)
  {
    var r := cur[y * Width..(y + 1) * Width];
    forall x | 0 <= x < Width
      ensures r[x] == g[At(x, y)]
    {
      assert r[x] == cur[k..][y * Width + x - k];
    }
  }

  /** Rows above y hold the next generation of the old grid g. */
  predicate RowsDone(cur: seq<int>, g: seq<int>, y: int)
    requires |cur| == GridSize && |g| == GridSize && 0 <= y <= Height
  {
    forall r, x :: 0 <= r < y && 0 <= x < Width ==> cur[At(x, r)] == LifeCell(g, x, r)
  }

  /** Writing row y from the three old rows around it moves the boundary
      between new and old rows down by one row. */
  lemma {:induction false} RowStep(before: seq<int>, after: seq<int>, g: seq<int>, y: int,
                                   above: seq<int>, cur: seq<int>, below: seq<int>)
    requires |before| == GridSize && |after| == GridSize && |g| == GridSize && 0 <= y < Height
    requires above == Row(g, (y - 1) % Height) && cur == Row(g, y) && below == Row(g, (y + 1) % Height)
    requires RowsDone(before, g, y) && before[y * Width..] == g[y * Width..]
    requires RowWritten(before, after, y * Width, above, cur, below)
    ensures RowsDone(after, g, y + 1) && after[(y + 1) * Width..] == g[(y + 1) * Width..]
  {
    forall r, x | 0 <= r < y + 1 && 0 <= x < Width
      ensures after[At(x, r)] == LifeCell(g, x, r)
    {
      var i := At(x, r);
      if r < y {
        assert i < y * Width;
        assert after[i] == before[i];
      } else {
        assert i == y * Width + x;
        assert after[i] == RowCell(above, cur, below, x);
        assert r == y;
        assert LifeCell(g, x, y) == RowCell(Row(g, (y - 1) % Height), Row(g, y), Row(g, (y + 1) % Height), x);
      }
    }
    var a, b := after[(y + 1) * Width..], g[(y + 1) * Width..];
    forall j | 0 <= j < |a|
      ensures a[j] == b[j]
    {
      var i := (y + 1) * Width + j;
      assert before[y * Width..][i - y * Width] == g[y * Width..][i - y * Width];
    }
  }

  /** Once every row is done the grid is the next generation. */
  lemma {:induction false} AllRowsDone(cur: seq<int>, g: seq<int>)
    requires |cur| == GridSize && |g| == GridSize && RowsDone(cur, g, Height)
    ensures cur == LifeNext(g)
  {
    var n := LifeNext(g);
    forall i | 0 <= i < GridSize
      ensures cur[i] == n[i]
    {
      CellDone(cur, g, i);
    }
  }

  /** A single cell of a finished grid. */
  lemma {:induction false} CellDone(cur: seq<int>, g: seq<int>, i: int)
    requires |cur| == GridSize && |g| == GridSize && RowsDone(cur, g, Height) && 0 <= i < GridSize
    ensures cur[i] == LifeNext(g)[i]
  {
    AtCovers(i);
    var x, r := i % Width, i / Width;
    assert cur[At(x, r)] == LifeCell(g, x, r);
    LifeNextAt(g, x, r);
    assert r * Width + x == i;
  }

  /** One pass of `life_step`'s loop: copy row y into the row buffer
      `y & 1` and rewrite it with `life_update_row` from the old rows above
      (the other buffer, or the last row for y = 0), at, and below (still
      in the grid, or the saved top row for the last row). */
  method LifeRowStep(grid8: array<byte>, row: seq<seq<int>>, topRow: seq<int>, y: int, ghost g: seq<int>)
    returns (row': seq<seq<int>>)
    requires grid8.Length == GridSize && |g| == GridSize && 0 <= y < Height && |row| == 2
    requires topRow == Row(g, 0)
    requires y == 0 ==> row[1] == Row(g, Height - 1)
    requires 0 < y ==> row[(y - 1) % 2] == Row(g, y - 1)
    requires RowsDone(grid8[..], g, y) && grid8[y * Width..] == g[y * Width..]
    modifies grid8
    ensures |row'| == 2 && row'[y % 2] == Row(g, y)
    ensures RowsDone(grid8[..], g, y + 1) && grid8[(y + 1) * Width..] == g[(y + 1) * Width..]
  {
    var above := row[(y - 1) % 2];
    assert above == Row(g, (y - 1) % Height) by {
      if y == 0 {
        assert (y - 1) % 2 == 1 && Clip(y - 1, Height) == Height - 1;
      } else {
        assert Clip(y - 1, Height) == y - 1;
      }
    }
    var cur := grid8[y * Width..(y + 1) * Width];
    assert cur == Row(g, y) by {
      RowUnchanged(grid8[..], g, y * Width, y);
    }
    row' := row[y % 2 := cur];
    var below;
    if y == Height - 1 {
      below := topRow;
      assert below == Row(g, (y + 1) % Height) by {
        assert Clip(y + 1, Height) == 0;
      }
    } else {
      below := grid8[(y + 1) * Width..(y + 2) * Width];
      assert below == Row(g, (y + 1) % Height) by {
        RowUnchanged(grid8[..], g, y * Width, y + 1);
        assert Clip(y + 1, Height) == y + 1;
      }
    }
    ghost var before := grid8[..];
    assert RowsDone(before, g, y) && before[y * Width..] == g[y * Width..];
    LifeUpdateRow(grid8, y * Width, above, cur, below);
    ghost var after := grid8[..];
    RowStep(before, after, g, y, above, cur, below);
  }

  /** `life_step`: one Life generation in place. The row buffers keep the
      old copy of the row above (already overwritten in the grid) and of the
      top row (needed again for the bottom row), so the result is the
      simultaneous update of every cell from the old grid. */
  method LifeStep(grid8: array<byte>)
    requires grid8.Length == GridSize
    modifies grid8
    ensures grid8[..] == LifeNext(old(grid8[..]))
  {
    ghost var g := grid8[..];
    assert grid8[0..] == g[0..];
    RowUnchanged(grid8[..], g, 0, 0);
    RowUnchanged(grid8[..], g, 0, Height - 1);
    var topRow := grid8[..Width];
    var row := [grid8[..Width], grid8[(Height - 1) * Width..Height * Width]];
    var y := 0;
    while y < Height
      invariant 0 <= y <= Height && |row| == 2
      invariant topRow == Row(g, 0)
      invariant y == 0 ==> row[1] == Row(g, Height - 1)
      invariant 0 < y ==> row[(y - 1) % 2] == Row(g, y - 1)
      invariant RowsDone(grid8[..], g, y)
      invariant grid8[y * Width..] == g[y * Width..]
    {
      row := LifeRowStep(grid8, row, topRow, y, g);
      assert (y + 1 - 1) % 2 == y % 2;
      y := y + 1;
    }
    AllRowsDone(grid8[..], g);
  }

  /** `margolus_update_square`'s test: `(unsigned)(sum - 1) < 3`, that is,
      one, two or three of the four cells are set. */
  function SquareFlips(nw: int, ne: int, sw: int, se: int): (f: bool)
    ensures 0 <= nw + ne + sw + se < Two32 ==> (f <==> 1 <= nw + ne + sw + se <= 3)
  {
    ToUnsigned(nw + ne + sw + se - 1) < 3
  }

  /** The new value of a cell of a square that flips: `1 - v` as a `Uint8`. */
  function Flip(v: int): (r: byte)
    ensures 0 <= v <= 1 ==> r == 1 - v
  {
    (1 - v) % 256
  }

  /** The coordinate after z on a torus of size dim. */
  function Succ(z: int, dim: int): (r: int)
    requires 0 <= z < dim
    ensures 0 <= r < dim && r == (z + 1) % dim
  {
    if z + 1 == dim then 0 else z + 1
  }

  /** The column (or row) where the Margolus block holding z starts, for
      block offset p (0 or 1): blocks start at coordinates of p's parity,
      and the block starting at `dim - 1` wraps around to 0. */
  function BlockStart(z: int, p: int, dim: int): (s: int)
    requires 0 < dim && dim % 2 == 0 && 0 <= z < dim && 0 <= p <= 1
    ensures 0 <= s < dim && (s - p) % 2 == 0
    ensures (z - p) % 2 == 0 ==> s == z
    ensures (z - p) % 2 == 1 ==> (if z == 0 then s == dim - 1 else s == z - 1)
  {
    if (z - p) % 2 == 0 then z else if z == 0 then dim - 1 else z - 1
  }

  /** Blocks do not overlap: both cells of a block agree on where it starts. */
  lemma {:induction false} BlocksAreDisjoint(z: int, p: int, dim: int)
    requires 0 < dim && dim % 2 == 0 && 0 <= z < dim && 0 <= p <= 1
    ensures BlockStart(BlockStart(z, p, dim), p, dim) == BlockStart(z, p, dim)
    ensures BlockStart(Succ(BlockStart(z, p, dim), dim), p, dim) == BlockStart(z, p, dim)
  {
    var s := BlockStart(z, p, dim);
    assert (s - p) % 2 == 0;
    if s + 1 < dim {
      assert (s + 1 - p) % 2 == 1;
    }
  }

  /** The value of cell (x, r) after the square in rows `top` and `bot` that
      holds column x has been updated. */
  function SquareCell(g: seq<int>, p: int, x: int, top: int, bot: int, r: int): int
    requires |g| == GridSize && 0 <= x < Width && 0 <= p <= 1
    requires 0 <= top < Height && 0 <= bot < Height && (r == top || r == bot)
  {
    var w := BlockStart(x, p, Width);
    var e := Succ(w, Width);
    if SquareFlips(g[At(w, top)], g[At(e, top)], g[At(w, bot)], g[At(e, bot)])
    then Flip(g[At(x, r)]) else g[At(x, r)]
  }

  /** Row r of the row pair `top`, `bot` once all its squares are updated. */
  function SquareRow(g: seq<int>, p: int, top: int, bot: int, r: int): (s: seq<int>)
    requires |g| == GridSize && 0 <= p <= 1
    requires 0 <= top < Height && 0 <= bot < Height && (r == top || r == bot)
    ensures |s| == Width && forall c :: 0 <= c < Width ==> s[c] == SquareCell(g, p, c, top, bot, r)
  {
    seq(Width, c requires 0 <= c < Width => SquareCell(g, p, c, top, bot, r))
  }

  /** One Margolus generation with block offset p: every 2x2 block (starting
      at odd rows and columns when p is 1, wrapping at the edges) is
      inverted when one to three of its cells are set. */
  function MargolusNext(g: seq<int>, p: int): (n: seq<int>)
    requires |g| == GridSize && 0 <= p <= 1
    ensures |n| == GridSize
  {
    seq(GridSize, i requires 0 <= i < GridSize =>
      var top := BlockStart(i / Width, p, Height);
      SquareCell(g, p, i % Width, top, Succ(top, Height), i / Width))
  }

  /** For cells that are 0 or 1, a Margolus generation is undone by the
      same generation: a square with one to three cells set still has one
      to three set after inversion. */
  lemma {:induction false} MargolusIsReversible(g: seq<int>, p: int)
    requires |g| == GridSize && 0 <= p <= 1
    requires forall i :: 0 <= i < GridSize ==> 0 <= g[i] <= 1
    ensures MargolusNext(MargolusNext(g, p), p) == g
  {
    var m := MargolusNext(MargolusNext(g, p), p);
    forall i | 0 <= i < GridSize
      ensures m[i] == g[i]
    {
      ReversibleAt(g, p, i);
    }
  }

  /** The reversal of a single cell: its square flips in the second
      generation exactly when it flipped in the first. */
  lemma {:induction false} ReversibleAt(g: seq<int>, p: int, i: int)
    requires |g| == GridSize && 0 <= p <= 1 && 0 <= i < GridSize
    requires forall i :: 0 <= i < GridSize ==> 0 <= g[i] <= 1
    ensures MargolusNext(MargolusNext(g, p), p)[i] == g[i]
  {
    AtCovers(i);
    ReversibleCell(g, p, i % Width, i / Width);
  }

  /** The same for the cell at column x of row y. */
  lemma {:induction false} ReversibleCell(g: seq<int>, p: int, x: int, y: int)
    requires |g| == GridSize && 0 <= p <= 1 && 0 <= x < Width && 0 <= y < Height
    requires forall i :: 0 <= i < GridSize ==> 0 <= g[i] <= 1
    ensures MargolusNext(MargolusNext(g, p), p)[At(x, y)] == g[At(x, y)]
  {
    var n := MargolusNext(g, p);
    NextCell(g, p, x, y);
    NextCell(n, p, x, y);
    FlipsAtAgain(g, p, x, y);
  }

  /** Whether the square holding the cell at column x of row y flips. */
  ghost predicate FlipsAt(g: seq<int>, p: int, x: int, y: int)
    requires |g| == GridSize && 0 <= p <= 1 && 0 <= x < Width && 0 <= y < Height
  {
    var top := BlockStart(y, p, Height);
    var bot := Succ(top, Height);
    var w := BlockStart(x, p, Width);
    var e := Succ(w, Width);
    SquareFlips(g[At(w, top)], g[At(e, top)], g[At(w, bot)], g[At(e, bot)])
  }

  /** A cell of the next generation is flipped exactly when its square
      flips. */
  lemma {:induction false} NextCell(g: seq<int>, p: int, x: int, y: int)
    requires |g| == GridSize && 0 <= p <= 1 && 0 <= x < Width && 0 <= y < Height
    ensures MargolusNext(g, p)[At(x, y)] == if FlipsAt(g, p, x, y) then Flip(g[At(x, y)]) else g[At(x, y)]
  {
    var top := BlockStart(y, p, Height);
    var w := BlockStart(x, p, Width);
    BlocksAreDisjoint(x, p, Width);
    BlocksAreDisjoint(y, p, Height);
    SameSquare(g, p, w, top, Succ(top, Height), x, y);
  }

  /** A square of cells that are 0 or 1 that flips still flips once
      flipped. */
  lemma {:induction false} FlipsAtAgain(g: seq<int>, p: int, x: int, y: int)
    requires |g| == GridSize && 0 <= p <= 1 && 0 <= x < Width && 0 <= y < Height
    requires forall i :: 0 <= i < GridSize ==> 0 <= g[i] <= 1
    ensures FlipsAt(MargolusNext(g, p), p, x, y) == FlipsAt(g, p, x, y)
  {
    var n := MargolusNext(g, p);
    var top := BlockStart(y, p, Height);
    var bot := Succ(top, Height);
    var w := BlockStart(x, p, Width);
    var e := Succ(w, Width);
    BlocksAreDisjoint(x, p, Width);
    BlocksAreDisjoint(y, p, Height);
    var a, b, c, d := At(w, top), At(e, top), At(w, bot), At(e, bot);
    SameSquare(g, p, w, top, bot, w, top);
    SameSquare(g, p, w, top, bot, e, top);
    SameSquare(g, p, w, top, bot, w, bot);
    SameSquare(g, p, w, top, bot, e, bot);
    FlipsAgain(g[a], g[b], g[c], g[d], n[a], n[b], n[c], n[d]);
  }

  /** Inverting a square with one to three cells set leaves one to three
      set, so the square flips again. */
  lemma {:induction false} FlipsAgain(a: int, b: int, c: int, d: int, a': int, b': int, c': int, d': int)
    requires 0 <= a <= 1 && 0 <= b <= 1 && 0 <= c <= 1 && 0 <= d <= 1
    requires var f := SquareFlips(a, b, c, d);
      a' == (if f then Flip(a) else a) && b' == (if f then Flip(b) else b) &&
      c' == (if f then Flip(c) else c) && d' == (if f then Flip(d) else d)
    ensures SquareFlips(a', b', c', d') == SquareFlips(a, b, c, d)
  {
  }

  /** Every cell of the square starting at (w, top) gets its new value from
      that same square. */
  lemma {:induction false} SameSquare(g: seq<int>, p: int, w: int, top: int, bot: int, x: int, y: int)
    requires |g| == GridSize && 0 <= p <= 1
    requires 0 <= w < Width && BlockStart(w, p, Width) == w
    requires 0 <= top < Height && BlockStart(top, p, Height) == top && bot == Succ(top, Height)
    requires x == w || x == Succ(w, Width)
    requires y == top || y == bot
    ensures var e := Succ(w, Width);
      MargolusNext(g, p)[At(x, y)] ==
        if SquareFlips(g[At(w, top)], g[At(e, top)], g[At(w, bot)], g[At(e, bot)])
        then Flip(g[At(x, y)]) else g[At(x, y)]
  {
    BlocksAreDisjoint(w, p, Width);
    BlocksAreDisjoint(top, p, Height);
    var i := At(x, y);
    assert i % Width == x && i / Width == y;
  }

  /** A row of the next generation is the matching row of its row pair's
      squares. */
  lemma {:induction false} MargolusNextRow(g: seq<int>, p: int, r: int)
    requires |g| == GridSize && 0 <= p <= 1 && 0 <= r < Height
    ensures var top := BlockStart(r, p, Height);
      Row(MargolusNext(g, p), r) == SquareRow(g, p, top, Succ(top, Height), r)
  {
    var top := BlockStart(r, p, Height);
    BlocksAreDisjoint(r, p, Height);
    var a, b := Row(MargolusNext(g, p), r), SquareRow(g, p, top, Succ(top, Height), r);
    forall c | 0 <= c < Width
      ensures a[c] == b[c]
    {
      var i := At(c, r);
      assert i % Width == c && i / Width == r;
    }
  }

  /** The squares of a row pair only read the two rows of the pair. */
  lemma {:induction false} SquareRowReadsPair(g: seq<int>, h: seq<int>, p: int, top: int, bot: int, r: int)
    requires |g| == GridSize && |h| == GridSize && 0 <= p <= 1
    requires 0 <= top < Height && 0 <= bot < Height && (r == top || r == bot)
    requires Row(g, top) == Row(h, top) && Row(g, bot) == Row(h, bot)
    ensures SquareRow(g, p, top, bot, r) == SquareRow(h, p, top, bot, r)
  {
    var a, b := SquareRow(g, p, top, bot, r), SquareRow(h, p, top, bot, r);
    forall c | 0 <= c < Width
      ensures a[c] == b[c]
    {
      var w := BlockStart(c, p, Width);
      var e := Succ(w, Width);
      assert Row(g, top)[w] == Row(h, top)[w] && Row(g, top)[e] == Row(h, top)[e];
      assert Row(g, bot)[w] == Row(h, bot)[w] && Row(g, bot)[e] == Row(h, bot)[e];
      assert Row(g, r)[c] == Row(h, r)[c];
    }
  }

  /** The effect of `margolus_update_square` on the cells nw, ne, sw, se:
      all four are inverted when one to three of them are set, and nothing
      else changes. */
  predicate SquareUpdated(before: seq<int>, after: seq<int>, nw: int, ne: int, sw: int, se: int)
    requires |before| == GridSize && |after| == GridSize
    requires 0 <= nw < GridSize && 0 <= ne < GridSize && 0 <= sw < GridSize && 0 <= se < GridSize
  {
    var f := SquareFlips(before[nw], before[ne], before[sw], before[se]);
    forall i :: 0 <= i < GridSize ==>
      after[i] == if f && (i == nw || i == ne || i == sw || i == se) then Flip(before[i]) else before[i]
  }

  /** `margolus_update_square` on four distinct cells of the grid. */
  method UpdateSquare(grid8: array<byte>, nw: int, ne: int, sw: int, se: int)
    requires grid8.Length == GridSize
    requires 0 <= nw < GridSize && 0 <= ne < GridSize && 0 <= sw < GridSize && 0 <= se < GridSize
    requires nw != ne && nw != sw && nw != se && ne != sw && ne != se && sw != se
    modifies grid8
    ensures SquareUpdated(old(grid8[..]), grid8[..], nw, ne, sw, se)
  {
    var nwv, nev, swv, sev := grid8[nw], grid8[ne], grid8[sw], grid8[se];
    var sum := nwv as int + nev as int + swv as int + sev as int;
    if ToUnsigned(sum - 1) < 3 {
      grid8[nw], grid8[ne], grid8[sw], grid8[se] := Flip(nwv), Flip(nev), Flip(swv), Flip(sev);
    }
  }

  /** The columns whose square `margolus_update_row` has updated once its
      loop has reached column x: those from p up to x, and for p = 1 the
      wrap-around square of the last and the first column, done first. */
  predicate ColumnDone(c: int, p: int, x: int)
  {
    (p <= c < x) || (p == 1 && (c == 0 || c == Width - 1))
  }

  /** Rows `top` and `bot` of `cur` hold the updated cells of the done
      columns and the old cells elsewhere. */
  predicate ColumnsProgress(cur: seq<int>, g: seq<int>, p: int, top: int, bot: int, x: int)
    requires |cur| == GridSize && |g| == GridSize && 0 <= p <= 1
    requires 0 <= top < Height && 0 <= bot < Height && top != bot
  {
    forall c :: 0 <= c < Width ==>
      cur[At(c, top)] == (if ColumnDone(c, p, x) then SquareCell(g, p, c, top, bot, top) else g[At(c, top)]) &&
      cur[At(c, bot)] == (if ColumnDone(c, p, x) then SquareCell(g, p, c, top, bot, bot) else g[At(c, bot)])
  }

  /** Cells outside rows `top` and `bot` agree. */
  predicate OutsidePair(cur: seq<int>, g: seq<int>, top: int, bot: int)
    requires |cur| == GridSize && |g| == GridSize
  {
    forall i :: 0 <= i < GridSize && !(top * Width <= i < top * Width + Width) && !(bot * Width <= i < bot * Width + Width) ==>
      cur[i] == g[i]
  }

  /** The four cells of the square starting at column w hold their updated
      values once `margolus_update_square` has run on the old cells. */
  lemma {:induction false} SquareCells(before: seq<int>, after: seq<int>, g: seq<int>, p: int, w: int, top: int, bot: int)
    requires |before| == GridSize && |after| == GridSize && |g| == GridSize && 0 <= p <= 1
    requires 0 <= w < Width && BlockStart(w, p, Width) == w
    requires 0 <= top < Height && 0 <= bot < Height && top != bot
    requires var e := Succ(w, Width);
      before[At(w, top)] == g[At(w, top)] && before[At(e, top)] == g[At(e, top)] &&
      before[At(w, bot)] == g[At(w, bot)] && before[At(e, bot)] == g[At(e, bot)]
    requires SquareUpdated(before, after, At(w, top), At(Succ(w, Width), top), At(w, bot), At(Succ(w, Width), bot))
    ensures var e := Succ(w, Width);
      after[At(w, top)] == SquareCell(g, p, w, top, bot, top) && after[At(e, top)] == SquareCell(g, p, e, top, bot, top) &&
      after[At(w, bot)] == SquareCell(g, p, w, top, bot, bot) && after[At(e, bot)] == SquareCell(g, p, e, top, bot, bot)
  {
    BlocksAreDisjoint(w, p, Width);
  }

  /** Updating the square at columns x and x + 1 extends the done columns
      to x + 2. */
  lemma {:induction false} ColumnsStep(before: seq<int>, after: seq<int>, g: seq<int>, p: int, top: int, bot: int, x: int)
    requires |before| == GridSize && |after| == GridSize && |g| == GridSize && 0 <= p <= 1
    requires 0 <= top < Height && 0 <= bot < Height && top != bot
    requires p <= x < Width - 1 && (x - p) % 2 == 0
    requires ColumnsProgress(before, g, p, top, bot, x) && OutsidePair(before, g, top, bot)
    requires SquareUpdated(before, after, At(x, top), At(x + 1, top), At(x, bot), At(x + 1, bot))
    ensures ColumnsProgress(after, g, p, top, bot, x + 2)
  {
    assert !ColumnDone(x, p, x) && !ColumnDone(x + 1, p, x);
    assert BlockStart(x, p, Width) == x && Succ(x, Width) == x + 1 by {
      assert (x - p) % 2 == 0;
    }
    SquareCells(before, after, g, p, x, top, bot);
    forall c | 0 <= c < Width
      ensures after[At(c, top)] == (if ColumnDone(c, p, x + 2) then SquareCell(g, p, c, top, bot, top) else g[At(c, top)])
      ensures after[At(c, bot)] == (if ColumnDone(c, p, x + 2) then SquareCell(g, p, c, top, bot, bot) else g[At(c, bot)])
    {
      if c != x && c != x + 1 {
        assert ColumnDone(c, p, x + 2) == ColumnDone(c, p, x);
        AtInjective(c, top, x, top);
        AtInjective(c, top, x + 1, top);
        AtInjective(c, top, x, bot);
        AtInjective(c, top, x + 1, bot);
        AtInjective(c, bot, x, top);
        AtInjective(c, bot, x + 1, top);
        AtInjective(c, bot, x, bot);
        AtInjective(c, bot, x + 1, bot);
      }
    }
  }

  /** Updating a square of rows `top` and `bot` leaves the other rows
      alone. */
  lemma {:induction false} OutsideStep(before: seq<int>, after: seq<int>, g: seq<int>, top: int, bot: int, x: int)
    requires |before| == GridSize && |after| == GridSize && |g| == GridSize
    requires 0 <= top < Height && 0 <= bot < Height && 0 <= x < Width - 1
    requires OutsidePair(before, g, top, bot)
    requires SquareUpdated(before, after, At(x, top), At(x + 1, top), At(x, bot), At(x + 1, bot))
    ensures OutsidePair(after, g, top, bot)
  {
    forall i | 0 <= i < GridSize && !(top * Width <= i < top * Width + Width) && !(bot * Width <= i < bot * Width + Width)
      ensures after[i] == g[i]
    {
      assert i != At(x, top) && i != At(x + 1, top) && i != At(x, bot) && i != At(x + 1, bot);
    }
  }

  /** The wrap-around square of the last and the first column, updated
      first when p is 1, makes those two columns done. */
  lemma {:induction false} WrapColumns(g: seq<int>, after: seq<int>, top: int, bot: int)
    requires |g| == GridSize && |after| == GridSize
    requires 0 <= top < Height && 0 <= bot < Height && top != bot
    requires SquareUpdated(g, after, At(Width - 1, top), At(0, top), At(Width - 1, bot), At(0, bot))
    ensures ColumnsProgress(after, g, 1, top, bot, 1) && OutsidePair(after, g, top, bot)
  {
    assert BlockStart(Width - 1, 1, Width) == Width - 1 && Succ(Width - 1, Width) == 0;
    SquareCells(g, after, g, 1, Width - 1, top, bot);
    forall c | 0 < c < Width - 1
      ensures after[At(c, top)] == g[At(c, top)] && after[At(c, bot)] == g[At(c, bot)]
    {
      AtInjective(c, top, 0, top);
      AtInjective(c, top, Width - 1, top);
      AtInjective(c, top, 0, bot);
      AtInjective(c, top, Width - 1, bot);
      AtInjective(c, bot, 0, top);
      AtInjective(c, bot, Width - 1, top);
      AtInjective(c, bot, 0, bot);
      AtInjective(c, bot, Width - 1, bot);
    }
  }

  /** When the loop of `margolus_update_row` ends, every column is done. */
  lemma {:induction false} ColumnsDone(cur: seq<int>, g: seq<int>, p: int, top: int, bot: int, x: int)
    requires |cur| == GridSize && |g| == GridSize && 0 <= p <= 1
    requires 0 <= top < Height && 0 <= bot < Height && top != bot
    requires Width - 1 <= x <= Width && (x - p) % 2 == 0
    requires ColumnsProgress(cur, g, p, top, bot, x)
    ensures Row(cur, top) == SquareRow(g, p, top, bot, top)
    ensures Row(cur, bot) == SquareRow(g, p, top, bot, bot)
  {
    assert forall c :: 0 <= c < Width ==> ColumnDone(c, p, x);
    var a, b := Row(cur, top), SquareRow(g, p, top, bot, top);
    assert forall c :: 0 <= c < Width ==> a[c] == b[c];
    var a', b' := Row(cur, bot), SquareRow(g, p, top, bot, bot);
    assert forall c :: 0 <= c < Width ==> a'[c] == b'[c];
  }

  /** The loop of `margolus_update_row` steps over pairs of columns of the
      parity of p, and the pair after one that fits also fits. */
  lemma NextColumnPair(x: int, p: int)
    requires 0 <= p <= 1 && p <= x < Width - 1 && (x - p) % 2 == 0
    ensures x + 2 <= Width && (x + 2 - p) % 2 == 0
  {
  }

  /** The four corners of a square with distinct columns and distinct rows
      are distinct cells of the grid. */
  lemma CornersDistinct(w: int, e: int, top: int, bot: int)
    requires 0 <= w < Width && 0 <= e < Width && w != e
    requires 0 <= top < Height && 0 <= bot < Height && top != bot
    ensures 0 <= At(w, top) < GridSize && 0 <= At(e, top) < GridSize
    ensures 0 <= At(w, bot) < GridSize && 0 <= At(e, bot) < GridSize
    ensures At(w, top) != At(e, top) && At(w, top) != At(w, bot) && At(w, top) != At(e, bot)
    ensures At(e, top) != At(w, bot) && At(e, top) != At(e, bot) && At(w, bot) != At(e, bot)
  {
    AtInjective(w, top, e, top);
    AtInjective(w, top, w, bot);
    AtInjective(w, top, e, bot);
    AtInjective(e, top, w, bot);
    AtInjective(e, top, e, bot);
    AtInjective(w, bot, e, bot);
  }

  /** The call of `margolus_update_square` in the loop of
      `margolus_update_row` on the square at columns x and x + 1. */
  method UpdateColumnPair(grid8: array<byte>, ghost g: seq<int>, p: int, top: int, bot: int, x: int)
    requires grid8.Length == GridSize && |g| == GridSize && 0 <= p <= 1
    requires 0 <= top < Height && 0 <= bot < Height && top != bot
    requires p <= x < Width - 1 && (x - p) % 2 == 0
    requires ColumnsProgress(grid8[..], g, p, top, bot, x) && OutsidePair(grid8[..], g, top, bot)
    modifies grid8
    ensures ColumnsProgress(grid8[..], g, p, top, bot, x + 2) && OutsidePair(grid8[..], g, top, bot)
    ensures x + 2 <= Width && (x + 2 - p) % 2 == 0
  {
    ghost var before := grid8[..];
    NextColumnPair(x, p);
    CornersDistinct(x, x + 1, top, bot);
    UpdateSquare(grid8, At(x, top), At(x + 1, top), At(x, bot), At(x + 1, bot));
    ColumnsStep(before, grid8[..], g, p, top, bot, x);
    OutsideStep(before, grid8[..], g, top, bot, x);
  }

  /** The wrap-around square of the last and the first column, which
      `margolus_update_row` updates first when p is 1. */
  method UpdateWrapSquare(grid8: array<byte>, top: int, bot: int)
    requires grid8.Length == GridSize
    requires 0 <= top < Height && 0 <= bot < Height && top != bot
    modifies grid8
    ensures ColumnsProgress(grid8[..], old(grid8[..]), 1, top, bot, 1)
    ensures OutsidePair(grid8[..], old(grid8[..]), top, bot)
  {
    ghost var g := grid8[..];
    CornersDistinct(Width - 1, 0, top, bot);
    UpdateSquare(grid8, At(Width - 1, top), At(0, top), At(Width - 1, bot), At(0, bot));
    WrapColumns(g, grid8[..], top, bot);
  }

  /** `margolus_update_row`: update every square of the row pair `top`,
      `bot` (the wrap-around square first when p is 1). */
  method MargolusUpdateRow(grid8: array<byte>, p: int, top: int, bot: int)
    requires grid8.Length == GridSize && 0 <= p <= 1
    requires 0 <= top < Height && 0 <= bot < Height && top != bot
    modifies grid8
    ensures Row(grid8[..], top) == SquareRow(old(grid8[..]), p, top, bot, top)
    ensures Row(grid8[..], bot) == SquareRow(old(grid8[..]), p, top, bot, bot)
    ensures OutsidePair(grid8[..], old(grid8[..]), top, bot)
  {
    ghost var g := grid8[..];
    if p == 1 {
      UpdateWrapSquare(grid8, top, bot);
    }
    var x := p;
    while x < Width - 1
      invariant p <= x <= Width && (x - p) % 2 == 0
      invariant ColumnsProgress(grid8[..], g, p, top, bot, x) && OutsidePair(grid8[..], g, top, bot)
    {
      UpdateColumnPair(grid8, g, p, top, bot, x);
      x := x + 2;
    }
    ColumnsDone(grid8[..], g, p, top, bot, x);
  }

  /** The rows whose pair `margolus_step` has updated once its loop has
      reached row y: those from p up to y, and for p = 1 the wrap-around
      pair of the last and the first row, done first. */
  predicate RowDone(r: int, p: int, y: int, wrapped: bool)
  {
    (p <= r < y) || (wrapped && (r == 0 || r == Height - 1))
  }

  /** Done rows hold the next generation; the others the old grid. */
  predicate RowsProgress(cur: seq<int>, g: seq<int>, next: seq<int>, p: int, y: int, wrapped: bool)
    requires |cur| == GridSize && |g| == GridSize && |next| == GridSize
  {
    forall r :: 0 <= r < Height ==> Row(cur, r) == if RowDone(r, p, y, wrapped) then Row(next, r) else Row(g, r)
  }

  /** Updating the row pair `top`, `bot` from rows that are still old marks
      both done and leaves the other rows alone. */
  lemma {:induction false} PairStep(before: seq<int>, after: seq<int>, g: seq<int>, p: int, top: int, bot: int,
                                    y: int, wrapped: bool, y': int, wrapped': bool)
    requires |before| == GridSize && |after| == GridSize && |g| == GridSize && 0 <= p <= 1
    requires 0 <= top < Height && BlockStart(top, p, Height) == top && bot == Succ(top, Height)
    requires PairAdds(p, top, bot, y, wrapped, y', wrapped')
    requires RowsProgress(before, g, MargolusNext(g, p), p, y, wrapped)
    requires Row(after, top) == SquareRow(before, p, top, bot, top)
    requires Row(after, bot) == SquareRow(before, p, top, bot, bot)
    requires OutsidePair(after, before, top, bot)
    ensures RowsProgress(after, g, MargolusNext(g, p), p, y', wrapped')
  {
    BlocksAreDisjoint(top, p, Height);
    assert Row(before, top) == Row(g, top) && Row(before, bot) == Row(g, bot);
    SquareRowReadsPair(before, g, p, top, bot, top);
    SquareRowReadsPair(before, g, p, top, bot, bot);
    MargolusNextRow(g, p, top);
    MargolusNextRow(g, p, bot);
    forall r | 0 <= r < Height && r != top && r != bot
      ensures Row(after, r) == Row(before, r)
    {
      RowOutsidePair(after, before, top, bot, r);
    }
  }

  /** A row other than `top` and `bot` is the same in two grids that agree
      outside those rows. */
  lemma {:induction false} RowOutsidePair(a: seq<int>, b: seq<int>, top: int, bot: int, r: int)
    requires |a| == GridSize && |b| == GridSize && 0 <= top < Height && 0 <= bot < Height
    requires 0 <= r < Height && r != top && r != bot
    requires OutsidePair(a, b, top, bot)
    ensures Row(a, r) == Row(b, r)
  {
    var ra, rb := Row(a, r), Row(b, r);
    forall c | 0 <= c < Width
      ensures ra[c] == rb[c]
    {
      var i := At(c, r);
      assert i / Width == r;
    }
  }

  /** Two grids with the same rows are equal. */
  lemma {:induction false} SameRows(a: seq<int>, b: seq<int>)
    requires |a| == GridSize && |b| == GridSize
    requires forall r :: 0 <= r < Height ==> Row(a, r) == Row(b, r)
    ensures a == b
  {
    forall i | 0 <= i < GridSize
      ensures a[i] == b[i]
    {
      AtCovers(i);
      assert Row(a, i / Width)[i % Width] == Row(b, i / Width)[i % Width];
    }
  }

  /** Doing the row pair `top`, `bot` moves the loop state from (y,
      wrapped) to (y', wrapped'). */
  predicate PairAdds(p: int, top: int, bot: int, y: int, wrapped: bool, y': int, wrapped': bool)
  {
    !RowDone(top, p, y, wrapped) && !RowDone(bot, p, y, wrapped) &&
    forall r :: 0 <= r < Height ==> (RowDone(r, p, y', wrapped') <==> RowDone(r, p, y, wrapped) || r == top || r == bot)
  }

  /** The row pair at y, y + 1 of `margolus_step`'s loop is a block and
      is not yet done. */
  lemma {:induction false} NextPair(p: int, y: int, wrapped: bool)
    requires 0 <= p <= 1 && p <= y < Height - 1 && (y - p) % 2 == 0 && (wrapped ==> p == 1)
    ensures BlockStart(y, p, Height) == y && Succ(y, Height) == y + 1
    ensures PairAdds(p, y, y + 1, y, wrapped, y + 2, wrapped)
  {
  }

  /** The wrap-around pair of the last and the first row, done first when
      p is 1. */
  lemma {:induction false} WrapPair()
    ensures BlockStart(Height - 1, 1, Height) == Height - 1 && Succ(Height - 1, Height) == 0
    ensures PairAdds(1, Height - 1, 0, 1, false, 1, true)
  {
  }

  /** When `margolus_step`'s loop ends every row is done. */
  lemma {:induction false} AllPairsDone(p: int, y: int, wrapped: bool)
    requires 0 <= p <= 1 && p <= y <= Height && y >= Height - 1 && (y - p) % 2 == 0 && (wrapped <==> p == 1)
    ensures forall r :: 0 <= r < Height ==> RowDone(r, p, y, wrapped)
  {
  }

  /** One call of `margolus_update_row` inside `margolus_step`, on a row
      pair that is still old: afterwards the pair is done as well. */
  method UpdateRowPair(grid8: array<byte>, ghost g: seq<int>, ghost next: seq<int>, p: int, top: int, bot: int,
                       ghost y: int, ghost wrapped: bool, ghost y': int, ghost wrapped': bool)
    requires grid8.Length == GridSize && |g| == GridSize && 0 <= p <= 1 && next == MargolusNext(g, p)
    requires 0 <= top < Height && BlockStart(top, p, Height) == top && bot == Succ(top, Height)
    requires PairAdds(p, top, bot, y, wrapped, y', wrapped')
    requires RowsProgress(grid8[..], g, next, p, y, wrapped)
    modifies grid8
    ensures RowsProgress(grid8[..], g, next, p, y', wrapped')
  {
    ghost var before := grid8[..];
    MargolusUpdateRow(grid8, p, top, bot);
    PairStep(before, grid8[..], g, p, top, bot, y, wrapped, y', wrapped');
  }

  /** `margolus_step`: one Margolus generation in place, with block offset
      `frame & 1`. */
  method MargolusStep(grid8: array<byte>, frame: int)
    requires grid8.Length == GridSize
    modifies grid8
    ensures grid8[..] == MargolusNext(old(grid8[..]), frame % 2)
  {
    ghost var g := grid8[..];
    var p := frame % 2;
    ghost var next := MargolusNext(g, p);
    ghost var wrapped := p == 1;
    if p == 1 {
      WrapPair();
      UpdateRowPair(grid8, g, next, p, Height - 1, 0, p, false, p, true);
    }
    var y := p;
    while y < Height - 1
      invariant p <= y <= Height && (y - p) % 2 == 0
      invariant RowsProgress(grid8[..], g, next, p, y, wrapped)
    {
      NextPair(p, y, wrapped);
      UpdateRowPair(grid8, g, next, p, y, y + 1, y, wrapped, y + 2, wrapped);
      y := y + 2;
    }
    AllPairsDone(p, y, wrapped);
    SameRows(grid8[..], next);
  }

  /** An entry of the 256-colour palette. */
  datatype Rgb = Rgb(r: byte, g: byte, b: byte)

  /** One frame of `decay_colors` on an entry: red, green and blue keep
      31/32, 63/64 and 15/16 of their value, rounded down. */
  function Decay(c: Rgb): (d: Rgb)
    ensures d.r <= c.r && d.g <= c.g && d.b <= c.b
    ensures (c.r > 0 ==> d.r < c.r) && (c.g > 0 ==> d.g < c.g) && (c.b > 0 ==> d.b < c.b)
  {
    Rgb(c.r * 31 / 32, c.g * 63 / 64, c.b * 15 / 16)
  }

  /** An entry after k frames of decay without being refreshed. */
  function DecayTimes(c: Rgb, k: nat): Rgb
  {
    if k == 0 then c else Decay(DecayTimes(c, k - 1))
  }

  /** Each frame of decay takes at least one off every component that is
      not yet zero, so every entry is black after 255 frames without being
      refreshed. */
  lemma {:induction false} DecayReachesBlack(c: Rgb, k: nat)
    ensures var d := DecayTimes(c, k);
      d.r <= if c.r < k then 0 else c.r - k
    ensures var d := DecayTimes(c, k);
      d.g <= if c.g < k then 0 else c.g - k
    ensures var d := DecayTimes(c, k);
      d.b <= if c.b < k then 0 else c.b - k
  {
    if k > 0 {
      DecayReachesBlack(c, k - 1);
    }
  }

  /** `decay_colors`: every palette entry decays, then entry `frame & 255`
      becomes white. */
  method DecayColors(colors: array<Rgb>, frame: int)
    requires colors.Length == 256
    modifies colors
    ensures forall i :: 0 <= i < 256 ==>
      colors[i] == if i == frame % 256 then Rgb(255, 255, 255) else Decay(old(colors[i]))
  {
    var i := 0;
    while i < 256
      invariant 0 <= i <= 256
      invariant forall k :: 0 <= k < 256 ==> colors[k] == if k < i then Decay(old(colors[k])) else old(colors[k])
    {
      colors[i] := Decay(colors[i]);
      i := i + 1;
    }
    colors[frame % 256] := Rgb(255, 255, 255);
  }

  /** `wipe_colors`: every palette entry becomes black. */
  method WipeColors(colors: array<Rgb>)
    requires colors.Length == 256
    modifies colors
    ensures forall i :: 0 <= i < 256 ==> colors[i] == Rgb(0, 0, 0)
  {
    var i := 0;
    while i <= 255
      invariant 0 <= i <= 256
      invariant forall k :: 0 <= k < i ==> colors[k] == Rgb(0, 0, 0)
    {
      colors[i] := Rgb(0, 0, 0);
      i := i + 1;
    }
  }

  /** `four_colors`: cells 0 to 3 (the Life states: dead, born, died,
      surviving) show black, blue, green and red; the other entries stay. */
  method FourColors(colors: array<Rgb>)
    requires colors.Length == 256
    modifies colors
    ensures colors[0] == Rgb(0, 0, 0) && colors[1] == Rgb(0, 0, 255)
    ensures colors[2] == Rgb(0, 255, 0) && colors[3] == Rgb(255, 0, 0)
    ensures forall i :: 4 <= i < 256 ==> colors[i] == old(colors[i])
  {
    colors[0] := Rgb(0, 0, 0);
    colors[1] := Rgb(0, 0, 255);
    colors[2] := Rgb(0, 255, 0);
    colors[3] := Rgb(255, 0, 0);
  }
}
