/** Grid moves, neighbour searches and turtle iteration shared by the
    grid simulations. Random numbers are parameters: each `r` stands for
    one value returned by the generator, in the order the code draws them. */
module Sim {
  import opened Cells
  import opened Screen

  /** `move`: step `z` by `dz`, wrapping once into [0, limit). */
  function Move(z: int, dz: int, limit: int): (r: int)
    ensures dz == 0 ==> r == z
    ensures 0 <= z < limit && -limit <= dz <= limit ==>
      0 <= r < limit && (r == z + dz || r == z + dz + limit || r == z + dz - limit)
  {
    if dz == 0 then z
    else if dz < 0 then (if z + dz < 0 then z + dz + limit else z + dz)
    else (if limit <= z + dz then z + dz - limit else z + dz)
  }

  /** On the torus, `move` is addition modulo the dimension. */
  lemma {:induction false} MoveIsModular(z: int, dz: int, limit: int)
    requires limit == GridWidth || limit == GridHeight
    requires 0 <= z < limit && -limit <= dz <= limit
    ensures Move(z, dz, limit) == (z + dz) % limit
  {
    if limit == GridWidth {
      assert Move(z, dz, GridWidth) == (z + dz) % GridWidth;
    } else {
      assert Move(z, dz, GridHeight) == (z + dz) % GridHeight;
    }
  }

  /** The eight compass steps; direction `d` moves by (Dx[d], Dy[d]). */
  const Dx: seq<int> := [1, 1, 0, -1, -1, -1, 0, 1]
  const Dy: seq<int> := [0, 1, 1, 1, 0, -1, -1, -1]
  const East: int := 0
  const North: int := 2
  const West: int := 4
  const South: int := 6

  /** A direction is a nonzero step, and direction d + 4 is its reverse. */
  lemma {:induction false} OppositeDirections(d: int)
    requires 0 <= d < 8
    ensures Dx[(d + 4) % 8] == -Dx[d] && Dy[(d + 4) % 8] == -Dy[d]
    ensures Dx[d] != 0 || Dy[d] != 0
    ensures -1 <= Dx[d] <= 1 && -1 <= Dy[d] <= 1
  {
    assert d == 0 || d == 1 || d == 2 || d == 3 || d == 4 || d == 5 || d == 6 || d == 7;
  }

  /** `move_x`: `(x + dx[d]) % grid_width` on unsigned 32-bit values. */
  function MoveX(x: u32, d: int): (r: int)
    requires 0 <= d < 8
    ensures 0 <= r < GridWidth
  {
    ToUnsigned(x + Dx[d]) % GridWidth
  }

  /** `move_y` as written: `(y + dy[d]) % grid_height` on unsigned 32-bit
      values. Because 2^32 is not a multiple of 768, the step up from row 0
      lands on row 255 instead of the last row. */
  function MoveYAsWritten(y: u32, d: int): (r: int)
    requires 0 <= d < 8
    ensures 0 <= r < GridHeight
  {
    ToUnsigned(y + Dy[d]) % GridHeight
  }

  /** `move_y` as intended: the row `y + dy[d]` on the torus. */
  function MoveY(y: u32, d: int): (r: int)
    requires 0 <= d < 8
    ensures 0 <= r < GridHeight
  {
    (y + Dy[d]) % GridHeight
  }

  /** The unsigned horizontal move agrees with the signed `move` on the torus,
      because 2^32 is a multiple of the width. */
  lemma {:induction false} MoveXIsTorus(x: u32, d: int)
    requires 0 <= d < 8 && x < GridWidth
    ensures MoveX(x, d) == Move(x, Dx[d], GridWidth)
  {
    OppositeDirections(d);
    if x + Dx[d] < 0 {
      assert ToUnsigned(x + Dx[d]) == Two32 - 1;
    }
  }

  /** The intended vertical move agrees with the signed `move` on the torus. */
  lemma {:induction false} MoveYIsTorus(y: u32, d: int)
    requires 0 <= d < 8 && y < GridHeight
    ensures MoveY(y, d) == Move(y, Dy[d], GridHeight)
  {
    OppositeDirections(d);
  }

  /** The vertical move as written leaves the torus at the top row: a step
      up from row 0 gives row 255, not row 767. */
  lemma MoveYAsWrittenFromTop()
    ensures Dy[South] == -1
    ensures MoveYAsWritten(0, South) == 255
    ensures MoveY(0, South) == GridHeight - 1
  {
    assert ToUnsigned(-1) == Two32 - 1;
  }

  /** Everywhere else the vertical move as written is the intended one. */
  lemma {:induction false} MoveYAsWrittenElsewhere(y: u32, d: int)
    requires 0 <= d < 8 && y < GridHeight
    requires y != 0 || Dy[d] != -1
    ensures MoveYAsWritten(y, d) == MoveY(y, d)
  {
    OppositeDirections(d);
  }

  /** `move2`: the grid index of the neighbour in direction `d`. */
  function Move2(x: u32, y: u32, d: int): (i: int)
    requires 0 <= d < 8 && x < GridWidth && y < GridHeight
    ensures 0 <= i < GridSize && i != At(x, y)
  {
    OppositeDirections(d);
    MoveXIsTorus(x, d);
    MoveYIsTorus(y, d);
    At(MoveX(x, d), MoveY(y, d))
  }

  /** `pick_greater_unsigned`: the label of the larger value, a coin toss
      (bit 0 of `r`) deciding a tie. */
  function PickGreaterUnsigned(v0: int, u0: int, v1: int, u1: int, r: u32): (u: int)
    ensures v0 < v1 ==> u == u1
    ensures v1 < v0 ==> u == u0
    ensures u == u0 || u == u1
  {
    if v0 < v1 || (v0 == v1 && r % 2 == 1) then u1 else u0
  }

  /** `follow_gradient_unsigned`: among the headings one left, straight and one
      right, one whose neighbour holds the largest value. */
  function FollowGradientUnsigned(a: seq<int>, heading: int, x: u32, y: u32,
                                  r1: u32, r2: u32, r3: u32): (d: int)
    requires |a| == GridSize && 0 <= heading < 8 && x < GridWidth && y < GridHeight
    ensures d == (heading + 7) % 8 || d == heading || d == (heading + 1) % 8
    ensures 0 <= d < 8
    ensures a[Move2(x, y, d)] >= a[Move2(x, y, (heading + 7) % 8)]
    ensures a[Move2(x, y, d)] >= a[Move2(x, y, heading)]
    ensures a[Move2(x, y, d)] >= a[Move2(x, y, (heading + 1) % 8)]
  {
    var dir1 := heading;
    var dir0 := ToUnsigned(dir1 - 1) % 8;
    var dir2 := ToUnsigned(dir1 + 1) % 8;
    assert dir0 == (heading + 7) % 8 by {
      if heading == 0 { assert ToUnsigned(-1) == Two32 - 1; }
    }
    var a0, a1, a2 := a[Move2(x, y, dir0)], a[Move2(x, y, dir1)], a[Move2(x, y, dir2)];
    PickGreaterUnsigned(a0, PickGreaterUnsigned(a0, dir0, a2, dir2, r1),
                        a1, PickGreaterUnsigned(a1, dir1, a2, dir2, r2), r3)
  }

  /** The k-th of the four orthogonal neighbours `find_neighbors4` examines:
      west, north (y - 1), east, south (y + 1). */
  function Neighbor4(x: int, y: int, k: int): (i: int)
    requires 0 <= x < GridWidth && 0 <= y < GridHeight && 0 <= k < 4
    ensures 0 <= i < GridSize
  {
    if k == 0 then At(Move(x, -1, GridWidth), y)
    else if k == 1 then At(x, Move(y, -1, GridHeight))
    else if k == 2 then At(Move(x, 1, GridWidth), y)
    else At(x, Move(y, 1, GridHeight))
  }

  /** The four neighbours are distinct cells, so a list of them has no repeats. */
  lemma {:induction false} Neighbors4Distinct(x: int, y: int, j: int, k: int)
    requires 0 <= x < GridWidth && 0 <= y < GridHeight && 0 <= j < k < 4
    ensures Neighbor4(x, y, j) != Neighbor4(x, y, k)
  {
    var xw, xe := Move(x, -1, GridWidth), Move(x, 1, GridWidth);
    var yn, ys := Move(y, -1, GridHeight), Move(y, 1, GridHeight);
    AtInjective(xw, y, x, yn);
    AtInjective(xw, y, xe, y);
    AtInjective(xw, y, x, ys);
    AtInjective(x, yn, xe, y);
    AtInjective(x, yn, x, ys);
    AtInjective(xe, y, x, ys);
  }

  /** The neighbours among the first `k` whose colour is `color`, in order. */
  function MatchingNeighbors(g: seq<int>, x: int, y: int, color: int, k: int): seq<int>
    requires |g| == GridSize && 0 <= x < GridWidth && 0 <= y < GridHeight && 0 <= k <= 4
  {
    if k == 0 then []
    else
      var i := Neighbor4(x, y, k - 1);
      MatchingNeighbors(g, x, y, color, k - 1) + (if g[i] == color then [i] else [])
  }

  /** The list holds at most four cells, each with the colour, and every
      neighbour with the colour is on it. */
  lemma {:induction false} MatchingNeighborsMeaning(g: seq<int>, x: int, y: int, color: int, k: int)
    requires |g| == GridSize && 0 <= x < GridWidth && 0 <= y < GridHeight && 0 <= k <= 4
    ensures |MatchingNeighbors(g, x, y, color, k)| <= k
    ensures forall i :: i in MatchingNeighbors(g, x, y, color, k) <==>
      exists j :: 0 <= j < k && i == Neighbor4(x, y, j) && g[i] == color
  {
    if k > 0 {
      MatchingNeighborsMeaning(g, x, y, color, k - 1);
    }
  }

  /** `check_neighbor`: append the neighbour at (dx, dy) when it has the colour. */
  method CheckNeighbor(grid: array<int>, neighbors: seq<int>, x: int, y: int,
                       dx: int, dy: int, color: int) returns (out: seq<int>)
    requires grid.Length == GridSize && 0 <= x < GridWidth && 0 <= y < GridHeight
    requires -1 <= dx <= 1 && -1 <= dy <= 1
    ensures var i := At(Move(x, dx, GridWidth), Move(y, dy, GridHeight));
      0 <= i < GridSize && out == neighbors + (if grid[i] == color then [i] else [])
  {
    var nx := Move(x, dx, GridWidth);
    var ny := Move(y, dy, GridHeight);
    out := neighbors;
    if grid[At(nx, ny)] == color {
      out := out + [At(nx, ny)];
    }
  }

  /** `find_neighbors4`: the neighbours west, north, east and south, in that
      order, that have the colour. The count is the length of the list. */
  method FindNeighbors4(grid: array<int>, x: int, y: int, color: int) returns (neighbors: seq<int>)
    requires grid.Length == GridSize && 0 <= x < GridWidth && 0 <= y < GridHeight
    ensures neighbors == MatchingNeighbors(grid[..], x, y, color, 4)
    ensures |neighbors| <= 4
    ensures forall i :: i in neighbors ==> 0 <= i < GridSize && grid[i] == color
  {
    ghost var g := grid[..];
    neighbors := CheckNeighbor(grid, [], x, y, -1, 0, color);
    assert neighbors == MatchingNeighbors(g, x, y, color, 1);
    neighbors := CheckNeighbor(grid, neighbors, x, y, 0, -1, color);
    assert neighbors == MatchingNeighbors(g, x, y, color, 2);
    neighbors := CheckNeighbor(grid, neighbors, x, y, 1, 0, color);
    assert neighbors == MatchingNeighbors(g, x, y, color, 3);
    neighbors := CheckNeighbor(grid, neighbors, x, y, 0, 1, color);
    assert neighbors == MatchingNeighbors(g, x, y, color, 4);
    MatchingNeighborsMeaning(g, x, y, color, 4);
  }

  /** `pick_neighbor4`: -1 when no orthogonal neighbour has the colour, and
      otherwise one that has, chosen by `r`. */
  method PickNeighbor4(grid: array<int>, x: int, y: int, color: int, r: u32) returns (i: int)
    requires grid.Length == GridSize && 0 <= x < GridWidth && 0 <= y < GridHeight
    ensures i == -1 <==> forall k :: 0 <= k < 4 ==> grid[Neighbor4(x, y, k)] != color
    ensures i != -1 ==> (0 <= i < GridSize && grid[i] == color &&
                         exists k :: 0 <= k < 4 && i == Neighbor4(x, y, k))
  {
    var neighbors := FindNeighbors4(grid, x, y, color);
    MatchingNeighborsMeaning(grid[..], x, y, color, 4);
    if 0 < |neighbors| {
      i := neighbors[r % |neighbors|];
      assert i in neighbors;
    } else {
      i := -1;
    }
  }

  /** The indices below |s| whose cell holds `v`, in increasing order. */
  function Patches(s: seq<int>, v: int): seq<int>
  {
    if |s| == 0 then []
    else Patches(s[..|s| - 1], v) + (if s[|s| - 1] == v then [|s| - 1] else [])
  }

  /** `Patches` lists exactly the cells holding `v`, strictly increasing. */
  lemma {:induction false} PatchesMeaning(s: seq<int>, v: int)
    ensures forall i :: i in Patches(s, v) <==> 0 <= i < |s| && s[i] == v
    ensures forall a, b :: 0 <= a < b < |Patches(s, v)| ==> Patches(s, v)[a] < Patches(s, v)[b]
    ensures |Patches(s, v)| <= |s|
  {
    if |s| > 0 {
      var t := s[..|s| - 1];
      PatchesMeaning(t, v);
      assert forall i :: 0 <= i < |t| ==> t[i] == s[i];
      var p := Patches(t, v);
      assert forall i :: i in p ==> i < |t|;
      assert forall a :: 0 <= a < |p| ==> p[a] in p;
    }
  }

  /** `list_patches`: store in `list` the index of every cell of `a` that holds
      `value`, in increasing order, and return how many there are. */
  method ListPatches(a: array<int>, value: int, list: array<int>) returns (n: nat)
    requires a.Length == GridSize && list.Length == GridSize && a != list
    modifies list
    ensures n <= GridSize && list[..n] == Patches(a[..], value)
  {
    n := 0;
    var i := 0;
    while i < GridSize
      invariant 0 <= i <= GridSize && n <= i
      invariant list[..n] == Patches(a[..i], value)
    {
      assert a[..i + 1][..i] == a[..i];
      if a[i] == value {
        list[n] := i;
        n := n + 1;
      }
      i := i + 1;
    }
    assert a[..] == a[..GridSize];
  }

  /** The entries at even positions of a list, then those at odd positions:
      the order in which `FOR_ALL_TURTLES` visits the listed cells. */
  function VisitOrder(l: seq<int>): seq<int>
  {
    Evens(l) + Odds(l)
  }

  function Evens(l: seq<int>): seq<int>
  {
    if |l| == 0 then [] else [l[0]] + Odds(l[1..])
  }

  function Odds(l: seq<int>): seq<int>
  {
    if |l| == 0 then [] else Evens(l[1..])
  }

  /** Every listed cell is visited exactly as often as it is listed. */
  lemma {:induction false} VisitOrderIsPermutation(l: seq<int>)
    ensures multiset(VisitOrder(l)) == multiset(l)
  {
    EvensOddsSplit(l);
  }

  lemma {:induction false} EvensOddsSplit(l: seq<int>)
    ensures multiset(Evens(l)) + multiset(Odds(l)) == multiset(l)
  {
    if |l| > 0 {
      EvensOddsSplit(l[1..]);
      assert l == [l[0]] + l[1..];
    }
  }

  /** The even positions of a list, as the first loop of `FOR_ALL_TURTLES` reads them. */
  lemma {:induction false} EvensAt(l: seq<int>, k: int)
    requires 0 <= k < (|l| + 1) / 2
    ensures |Evens(l)| == (|l| + 1) / 2 && Evens(l)[k] == l[2 * k]
    decreases |l|
  {
    if k > 0 {
      OddsAt(l[1..], k - 1);
    } else {
      OddsLength(l[1..]);
    }
  }

  lemma {:induction false} OddsAt(l: seq<int>, k: int)
    requires 0 <= k < |l| / 2
    ensures |Odds(l)| == |l| / 2 && Odds(l)[k] == l[2 * k + 1]
    decreases |l|
  {
    EvensAt(l[1..], k);
  }

  lemma {:induction false} OddsLength(l: seq<int>)
    ensures |Odds(l)| == |l| / 2 && |Evens(l)| == (|l| + 1) / 2
  {
    if |l| > 0 {
      OddsLength(l[1..]);
    }
  }

  /** The position in the list of the entry visited `a`-th. */
  function VisitedPosition(n: int, a: int): int
  {
    if a < (n + 1) / 2 then 2 * a else 2 * (a - (n + 1) / 2) + 1
  }

  lemma {:induction false} VisitOrderAt(l: seq<int>, a: int)
    requires 0 <= a < |l|
    ensures |VisitOrder(l)| == |l|
    ensures 0 <= VisitedPosition(|l|, a) < |l| && VisitOrder(l)[a] == l[VisitedPosition(|l|, a)]
  {
    OddsLength(l);
    if a < (|l| + 1) / 2 {
      EvensAt(l, a);
    } else {
      OddsAt(l, a - (|l| + 1) / 2);
    }
  }

  /** Visiting a list of patches reaches each cell holding `value` once: the
      visit order holds exactly those cells and no cell twice. */
  lemma {:induction false} VisitOrderOfPatches(s: seq<int>, v: int)
    ensures forall i :: i in VisitOrder(Patches(s, v)) <==> 0 <= i < |s| && s[i] == v
  {
    var l := Patches(s, v);
    PatchesMeaning(s, v);
    VisitOrderIsPermutation(l);
    assert forall i :: i in VisitOrder(l) <==> i in multiset(VisitOrder(l));
    assert forall i :: i in l <==> i in multiset(l);
  }

  /** No cell is visited twice. */
  lemma {:induction false} VisitOrderOfPatchesDistinct(s: seq<int>, v: int)
    ensures forall a, b :: 0 <= a < b < |VisitOrder(Patches(s, v))| ==>
      VisitOrder(Patches(s, v))[a] != VisitOrder(Patches(s, v))[b]
  {
    var l := Patches(s, v);
    PatchesMeaning(s, v);
    OddsLength(l);
    forall a, b | 0 <= a < b < |VisitOrder(l)|
      ensures VisitOrder(l)[a] != VisitOrder(l)[b]
    {
      VisitOrderAt(l, a);
      VisitOrderAt(l, b);
      var pa, pb := VisitedPosition(|l|, a), VisitedPosition(|l|, b);
      assert pa != pb;
      if pa < pb { assert l[pa] < l[pb]; } else { assert l[pb] < l[pa]; }
    }
  }

  /** `FOR_ALL_TURTLES`: list the cells holding `value` before anything moves,
      then visit the entries at even positions and then those at odd ones. */
  method ForAllTurtlesOrder(a: array<int>, value: int, list: array<int>) returns (order: seq<int>)
    requires a.Length == GridSize && list.Length == GridSize && a != list
    modifies list
    ensures order == VisitOrder(Patches(a[..], value))
  {
    var n := ListPatches(a, value, list);
    ghost var l := list[..n];
    order := [];
    OddsLength(l);
    var i, j := 0, 0;
    while i < n
      invariant i == 2 * j && 0 <= j <= |Evens(l)|
      invariant order == Evens(l)[..j]
      invariant list[..n] == l
    {
      EvensAt(l, j);
      assert list[i] == l[i];
      assert Evens(l)[..j + 1] == Evens(l)[..j] + [Evens(l)[j]];
      order := order + [list[i]];
      i, j := i + 2, j + 1;
    }
    assert order == Evens(l);
    i, j := 1, 0;
    while i < n
      invariant i == 2 * j + 1 && 0 <= j <= |Odds(l)|
      invariant order == Evens(l) + Odds(l)[..j]
      invariant list[..n] == l
    {
      OddsAt(l, j);
      assert list[i] == l[i];
      assert Odds(l)[..j + 1] == Odds(l)[..j] + [Odds(l)[j]];
      order := order + [list[i]];
      i, j := i + 2, j + 1;
    }
    assert Odds(l)[..j] == Odds(l);
  }

  /** `pick_empty_patch` with its random draws given in advance: the first drawn
      index whose cell holds `empty`. The source keeps drawing until it finds
      one; `found` is false when none of the given draws hits. */
  method PickEmptyPatch(a: array<int>, empty: int, draws: seq<u32>) returns (found: bool, i: int)
    requires a.Length == GridSize
    ensures found ==> (0 <= i < GridSize && a[i] == empty &&
                       exists k :: 0 <= k < |draws| && i == draws[k] % GridSize &&
                         forall j :: 0 <= j < k ==> a[draws[j] % GridSize] != empty)
    ensures !found <==> forall j :: 0 <= j < |draws| ==> a[draws[j] % GridSize] != empty
  {
    var k := 0;
    while k < |draws|
      invariant 0 <= k <= |draws|
      invariant forall j :: 0 <= j < k ==> a[draws[j] % GridSize] != empty
    {
      i := draws[k] % GridSize;
      if a[i] == empty {
        return true, i;
      }
      k := k + 1;
    }
    return false, -1;
  }
}
