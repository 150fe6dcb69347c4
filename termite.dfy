/** Termites that wander the grid, pick up sand grains they bump into and
    drop them next to other sand. A cell holds a colour that says what is
    there; each termite also has a heading, one of the eight directions. */
module Termite {
  import opened Cells
  import opened Screen
  import opened Sim

  const Empty: int := Black
  const Emptyhanded: int := Green * 3 / 4
  const Carrying: int := Yellow
  const Sand: int := MakeRgb(192, 192, 0)

  /** The four cell kinds are different colours. */
  lemma KindsDistinct()
    ensures Empty == 0 && Emptyhanded == 0xBF40 && Carrying == 0xFF_FF00 && Sand == 0xC0_C000
  {
  }

  /** The grid colours and the termites' headings. */
  datatype World = World(grid: seq<int>, heading: seq<int>)

  predicate WellFormed(w: World)
  {
    |w.grid| == GridSize && |w.heading| == GridSize
  }

  /** How many termites there are, carrying or not. */
  function Termites(g: seq<int>): nat
  {
    multiset(g)[Emptyhanded] + multiset(g)[Carrying]
  }

  /** How much sand there is, counting the grains termites carry. */
  function Load(g: seq<int>): nat
  {
    multiset(g)[Sand] + multiset(g)[Carrying]
  }

  /** The heading after a random turn of at most one step, left or right:
      `(heading + r % 3 - 1) % 8` on unsigned values. */
  function Turn(h: int, r: u32): (d: int)
    ensures 0 <= d < 8
    ensures 0 <= h < 8 ==> d == (h + 7) % 8 || d == h || d == (h + 1) % 8
  {
    assert ToUnsigned(-1) == Two32 - 1;
    ToUnsigned(h + r % 3 - 1) % 8
  }

  /** `emptyhanded_move` on values: turn, then look at the neighbour ahead.
      Sand there is picked up (the termite becomes a carrying one) and the
      termite moves onto it; an empty cell is simply moved into; anything
      else makes the termite pick a fresh random heading and stay. */
  function EmptyhandedNext(w: World, t: int, x: int, y: int, r1: u32, r2: u32): World
    requires WellFormed(w) && 0 <= x < GridWidth && 0 <= y < GridHeight && t == At(x, y)
  {
    var h := Turn(w.heading[t], r1);
    var nb := Move2(x, y, h);
    var g := if w.grid[nb] == Sand then w.grid[t := Carrying] else w.grid;
    if w.grid[nb] != Sand && w.grid[nb] != Empty then
      World(w.grid, w.heading[t := r2 % 8])
    else
      World(g[nb := g[t]][t := Empty], w.heading[t := h][nb := h])
  }

  /** `carrying_move` on values: turn, then look ahead. An occupied cell makes
      the termite pick a fresh heading. Otherwise it moves; when some
      orthogonal neighbour of its old cell is sand, it drops its grain in the
      old cell and goes on empty-handed. */
  function CarryingNext(w: World, t: int, x: int, y: int, r1: u32, r2: u32): World
    requires WellFormed(w) && 0 <= x < GridWidth && 0 <= y < GridHeight && t == At(x, y)
  {
    var h := Turn(w.heading[t], r1);
    var nb := Move2(x, y, h);
    if w.grid[nb] != Empty then
      World(w.grid, w.heading[t := r2 % 8])
    else
      var drop := 0 < |MatchingNeighbors(w.grid, x, y, Sand, 4)|;
      var me := if drop then Emptyhanded else Carrying;
      var behind := if drop then Sand else Empty;
      World(w.grid[nb := me][t := behind], w.heading[t := h][nb := h])
  }

  /** Headings stay directions. */
  predicate HeadingsValid(w: World)
  {
    forall i :: 0 <= i < |w.heading| ==> 0 <= w.heading[i] < 8
  }

  /** How often a value occurs after one cell is overwritten. */
  lemma {:induction false} OneWriteCount(g: seq<int>, a: int, w: int, v: int)
    requires 0 <= a < |g|
    ensures multiset(g[a := w])[v] + (if g[a] == v then 1 else 0) == multiset(g)[v] + (if w == v then 1 else 0)
  {
    assert g == g[..a] + [g[a]] + g[a + 1..];
    assert g[a := w] == g[..a] + [w] + g[a + 1..];
  }

  /** An empty-handed termite's move keeps the number of termites and the
      amount of sand. */
  lemma {:induction false} EmptyhandedConserves(w: World, t: int, x: int, y: int, r1: u32, r2: u32)
    requires WellFormed(w) && 0 <= x < GridWidth && 0 <= y < GridHeight && t == At(x, y)
    requires w.grid[t] == Emptyhanded
    ensures var n := EmptyhandedNext(w, t, x, y, r1, r2);
      Termites(n.grid) == Termites(w.grid) && Load(n.grid) == Load(w.grid)
  {
    KindsDistinct();
    var n := EmptyhandedNext(w, t, x, y, r1, r2);
    var nb := Move2(x, y, Turn(w.heading[t], r1));
    var g := w.grid;
    MoveCases(w, t, x, y, r1, r2);
    if g[nb] == Sand {
      assert n.grid == g[nb := Carrying][t := Empty];
      WritesConserve(g, nb, t, Carrying, Empty);
    } else if g[nb] == Empty {
      assert n.grid == g[nb := Emptyhanded][t := Empty];
      WritesConserve(g, nb, t, Emptyhanded, Empty);
    }
  }

  /** How often a value occurs after two cells are overwritten. */
  lemma {:induction false} WritesCount(g: seq<int>, a: int, b: int, va: int, vb: int, v: int)
    requires 0 <= a < |g| && 0 <= b < |g| && a != b
    ensures multiset(g[a := va][b := vb])[v] + (if g[a] == v then 1 else 0) + (if g[b] == v then 1 else 0) ==
      multiset(g)[v] + (if va == v then 1 else 0) + (if vb == v then 1 else 0)
  {
    OneWriteCount(g, a, va, v);
    assert g[a := va][b] == g[b];
    OneWriteCount(g[a := va], b, vb, v);
  }

  /** Two cells overwritten: the termite and sand counts. */
  lemma {:induction false} WritesConserve(g: seq<int>, a: int, b: int, va: int, vb: int)
    requires 0 <= a < |g| && 0 <= b < |g| && a != b
    requires (g[a] == Sand && g[b] == Emptyhanded && va == Carrying && vb == Empty) ||
             (g[a] == Empty && g[b] == Emptyhanded && va == Emptyhanded && vb == Empty) ||
             (g[a] == Empty && g[b] == Carrying && va == Emptyhanded && vb == Sand) ||
             (g[a] == Empty && g[b] == Carrying && va == Carrying && vb == Empty)
    ensures Termites(g[a := va][b := vb]) == Termites(g) && Load(g[a := va][b := vb]) == Load(g)
  {
    KindsDistinct();
    WritesCount(g, a, b, va, vb, Emptyhanded);
    WritesCount(g, a, b, va, vb, Carrying);
    WritesCount(g, a, b, va, vb, Sand);
  }

  /** An empty-handed termite's move keeps headings valid and changes no
      other occupied cell: it only ever moves into sand or an empty cell. */
  lemma {:induction false} EmptyhandedFrame(w: World, t: int, x: int, y: int, r1: u32, r2: u32)
    requires WellFormed(w) && 0 <= x < GridWidth && 0 <= y < GridHeight && t == At(x, y)
    ensures var n := EmptyhandedNext(w, t, x, y, r1, r2);
      WellFormed(n) && (HeadingsValid(w) ==> HeadingsValid(n)) &&
      forall i :: 0 <= i < GridSize && i != t && w.grid[i] != Sand && w.grid[i] != Empty ==>
        n.grid[i] == w.grid[i]
  {
    MoveCases(w, t, x, y, r1, r2);
  }

  /** A carrying termite's move keeps the number of termites and the amount
      of sand. */
  lemma {:induction false} CarryingConserves(w: World, t: int, x: int, y: int, r1: u32, r2: u32)
    requires WellFormed(w) && 0 <= x < GridWidth && 0 <= y < GridHeight && t == At(x, y)
    requires w.grid[t] == Carrying
    ensures var n := CarryingNext(w, t, x, y, r1, r2);
      Termites(n.grid) == Termites(w.grid) && Load(n.grid) == Load(w.grid)
  {
    KindsDistinct();
    var n := CarryingNext(w, t, x, y, r1, r2);
    var nb := Move2(x, y, Turn(w.heading[t], r1));
    var g := w.grid;
    MoveCases(w, t, x, y, r1, r2);
    if g[nb] == Empty {
      if 0 < |MatchingNeighbors(g, x, y, Sand, 4)| {
        assert n.grid == g[nb := Emptyhanded][t := Sand];
        WritesConserve(g, nb, t, Emptyhanded, Sand);
      } else {
        assert n.grid == g[nb := Carrying][t := Empty];
        WritesConserve(g, nb, t, Carrying, Empty);
      }
    }
  }

  /** A carrying termite's move keeps headings valid and changes no other
      occupied cell: it only ever moves into an empty cell. */
  lemma {:induction false} CarryingFrame(w: World, t: int, x: int, y: int, r1: u32, r2: u32)
    requires WellFormed(w) && 0 <= x < GridWidth && 0 <= y < GridHeight && t == At(x, y)
    ensures var n := CarryingNext(w, t, x, y, r1, r2);
      WellFormed(n) && (HeadingsValid(w) ==> HeadingsValid(n)) &&
      forall i :: 0 <= i < GridSize && i != t && w.grid[i] != Empty ==> n.grid[i] == w.grid[i]
  {
    MoveCases(w, t, x, y, r1, r2);
  }

  /** What each move does to the cells, case by case. */
  lemma {:induction false} MoveCases(w: World, t: int, x: int, y: int, r1: u32, r2: u32)
    requires WellFormed(w) && 0 <= x < GridWidth && 0 <= y < GridHeight && t == At(x, y)
    ensures var nb := Move2(x, y, Turn(w.heading[t], r1));
      var e := EmptyhandedNext(w, t, x, y, r1, r2);
      var c := CarryingNext(w, t, x, y, r1, r2);
      (w.grid[nb] == Sand ==> e.grid == w.grid[nb := Carrying][t := Empty]) &&
      (w.grid[nb] == Empty ==> e.grid == w.grid[nb := w.grid[t]][t := Empty]) &&
      (w.grid[nb] != Sand && w.grid[nb] != Empty ==> e.grid == w.grid && e.heading[t] == r2 % 8) &&
      (w.grid[nb] != Empty ==> c.grid == w.grid && c.heading[t] == r2 % 8) &&
      (w.grid[nb] == Empty && 0 < |MatchingNeighbors(w.grid, x, y, Sand, 4)| ==>
         c.grid == w.grid[nb := Emptyhanded][t := Sand]) &&
      (w.grid[nb] == Empty && |MatchingNeighbors(w.grid, x, y, Sand, 4)| == 0 ==>
         c.grid == w.grid[nb := Carrying][t := Empty])
  {
    KindsDistinct();
    var nb := Move2(x, y, Turn(w.heading[t], r1));
    if w.grid[nb] == Sand {
      assert w.grid[t := Carrying][nb := Carrying][t := Empty] == w.grid[nb := Carrying][t := Empty];
    }
  }

  /** `make_termite`: an empty-handed termite with heading `r % 8` at cell `i`. */
  method MakeTermite(grid: array<int>, heading: array<int>, i: int, r: u32)
    requires grid.Length == GridSize && heading.Length == GridSize && grid != heading
    requires 0 <= i < GridSize
    modifies grid, heading
    ensures grid[..] == old(grid[..])[i := Emptyhanded]
    ensures heading[..] == old(heading[..])[i := r % 8]
  {
    grid[i] := Emptyhanded;
    heading[i] := r % 8;
  }

  /** `emptyhanded_move` on the grid and heading arrays. */
  method EmptyhandedMove(grid: array<int>, heading: array<int>, t: int, x: int, y: int, r1: u32, r2: u32)
    requires grid.Length == GridSize && heading.Length == GridSize && grid != heading
    requires 0 <= x < GridWidth && 0 <= y < GridHeight && t == At(x, y)
    modifies grid, heading
    ensures World(grid[..], heading[..]) ==
      EmptyhandedNext(World(old(grid[..]), old(heading[..])), t, x, y, r1, r2)
  {
    heading[t] := Turn(heading[t], r1);
    var neighbor := Move2(x, y, heading[t]);
    if grid[neighbor] == Sand {
      grid[t] := Carrying;
    } else if grid[neighbor] != Empty {
      heading[t] := r2 % 8;
      return;
    }
    grid[neighbor] := grid[t];
    heading[neighbor] := heading[t];
    grid[t] := Empty;
  }

  /** `carrying_move` on the grid and heading arrays. */
  method CarryingMove(grid: array<int>, heading: array<int>, t: int, x: int, y: int, r1: u32, r2: u32)
    requires grid.Length == GridSize && heading.Length == GridSize && grid != heading
    requires 0 <= x < GridWidth && 0 <= y < GridHeight && t == At(x, y)
    modifies grid, heading
    ensures World(grid[..], heading[..]) ==
      CarryingNext(World(old(grid[..]), old(heading[..])), t, x, y, r1, r2)
  {
    heading[t] := Turn(heading[t], r1);
    var neighbor := Move2(x, y, heading[t]);
    if grid[neighbor] != Empty {
      heading[t] := r2 % 8;
    } else {
      var me, behind := Carrying, Empty;
      var neigh := FindNeighbors4(grid, x, y, Sand);
      if 0 < |neigh| {
        me := Emptyhanded;
        behind := Sand;
      }
      grid[neighbor] := me;
      heading[neighbor] := heading[t];
      grid[t] := behind;
    }
  }

  /** `tick`: every empty-handed termite moves once, then every termite that
      was carrying when the second pass began moves once; each pass works from
      a list taken before it starts. The `k`-th visit of a pass draws
      `rand(2k)` and `rand(2k + 1)`. The number of termites and the amount of
      sand do not change, and headings stay directions. */
  method Tick(grid: array<int>, heading: array<int>, list: array<int>,
              rand1: nat -> u32, rand2: nat -> u32)
    requires grid.Length == GridSize && heading.Length == GridSize && list.Length == GridSize
    requires grid != heading && grid != list && heading != list
    requires HeadingsValid(World(grid[..], heading[..]))
    modifies grid, heading, list
    ensures HeadingsValid(World(grid[..], heading[..]))
    ensures Termites(grid[..]) == Termites(old(grid[..]))
    ensures Load(grid[..]) == Load(old(grid[..]))
  {
    Pass(grid, heading, list, Emptyhanded, rand1);
    Pass(grid, heading, list, Carrying, rand2);
  }

  /** One `FOR_ALL_TURTLES` pass over the termites of one kind. */
  method Pass(grid: array<int>, heading: array<int>, list: array<int>, kind: int, rand: nat -> u32)
    requires grid.Length == GridSize && heading.Length == GridSize && list.Length == GridSize
    requires grid != heading && grid != list && heading != list
    requires kind == Emptyhanded || kind == Carrying
    requires HeadingsValid(World(grid[..], heading[..]))
    modifies grid, heading, list
    ensures HeadingsValid(World(grid[..], heading[..]))
    ensures Termites(grid[..]) == Termites(old(grid[..]))
    ensures Load(grid[..]) == Load(old(grid[..]))
  {
    KindsDistinct();
    var order := ForAllTurtlesOrder(grid, kind, list);
    VisitOrderOfPatches(grid[..], kind);
    VisitOrderOfPatchesDistinct(grid[..], kind);
    assert forall m :: 0 <= m < |order| ==> order[m] in order;
    var k := 0;
    while k < |order|
      invariant 0 <= k <= |order|
      invariant HeadingsValid(World(grid[..], heading[..]))
      invariant Termites(grid[..]) == Termites(old(grid[..]))
      invariant Load(grid[..]) == Load(old(grid[..]))
      invariant forall m :: k <= m < |order| ==> 0 <= order[m] < GridSize && grid[order[m]] == kind
    {
      var j := order[k];
      AtCovers(j);
      var x, y := j % GridWidth, j / GridWidth;
      ghost var w := World(grid[..], heading[..]);
      if kind == Emptyhanded {
        EmptyhandedMove(grid, heading, j, x, y, rand(2 * k), rand(2 * k + 1));
        EmptyhandedConserves(w, j, x, y, rand(2 * k), rand(2 * k + 1));
        EmptyhandedFrame(w, j, x, y, rand(2 * k), rand(2 * k + 1));
      } else {
        CarryingMove(grid, heading, j, x, y, rand(2 * k), rand(2 * k + 1));
        CarryingConserves(w, j, x, y, rand(2 * k), rand(2 * k + 1));
        CarryingFrame(w, j, x, y, rand(2 * k), rand(2 * k + 1));
      }
      forall m | k + 1 <= m < |order|
        ensures grid[order[m]] == kind
      {
        assert order[m] != j;
        assert w.grid[order[m]] == kind;
      }
      k := k + 1;
    }
  }
}
