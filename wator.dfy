/** Wa-Tor: fish and sharks on the toroidal grid. Fish wander and breed;
    sharks eat fish, starve, and breed. Each critter's health and breeding
    countdown are 16-bit `short`s kept beside the grid. */
module Wator {
  import opened Cells
  import opened Screen
  import opened Sim

  const Empty: int := Black
  const FishColor: int := Green
  const SharkColor: int := Red

  /** The three cell kinds are different colours. */
  lemma KindsDistinct()
    ensures Empty == 0 && FishColor == 0xFF00 && SharkColor == 0xFF_0000
  {
  }

  /** C's conversion of an `int` to a 16-bit `short`. */
  function ToShort(x: int): (s: int)
    ensures -0x8000 <= s < 0x8000 && (s - x) % 0x1_0000 == 0
    ensures -0x8000 <= x < 0x8000 ==> s == x
  {
    var u := x % 0x1_0000;
    if u < 0x8000 then u else u - 0x1_0000
  }

  /** The three tunable parameters of the simulation. */
  datatype Params = Params(fishBreedingAge: int, sharkBreedingAge: int, sharkStarveTime: int)

  /** The grid colours and the two per-cell counters. */
  datatype Sea = Sea(grid: seq<int>, health: seq<int>, countdown: seq<int>)

  predicate WellFormed(s: Sea)
  {
    |s.grid| == GridSize && |s.health| == GridSize && |s.countdown| == GridSize
  }

  /** `r % n` where `n` is an `int` the C code converts to `unsigned`. */
  function URem(r: u32, n: int): (m: int)
    requires ToUnsigned(n) != 0
    ensures 0 <= m < ToUnsigned(n)
    ensures 0 < n ==> m < n
  {
    r % ToUnsigned(n)
  }

  /** `make_fish`: a fish at `i` with a countdown drawn below the breeding age. */
  function MakeFish(s: Sea, p: Params, i: int, r: u32): (t: Sea)
    requires WellFormed(s) && 0 <= i < GridSize && ToUnsigned(p.fishBreedingAge) != 0
    ensures WellFormed(t) && t.grid[i] == FishColor && t.health == s.health
    ensures 0 < p.fishBreedingAge < 0x8000 ==> 0 <= t.countdown[i] < p.fishBreedingAge
    ensures forall j :: 0 <= j < GridSize && j != i ==> t.grid[j] == s.grid[j] && t.countdown[j] == s.countdown[j]
  {
    Sea(s.grid[i := FishColor], s.health, s.countdown[i := ToShort(URem(r, p.fishBreedingAge))])
  }

  /** `make_shark`: a shark at `i` with health below the starving time and a
      countdown below the breeding age, both drawn at random. */
  function MakeShark(s: Sea, p: Params, i: int, r1: u32, r2: u32): (t: Sea)
    requires WellFormed(s) && 0 <= i < GridSize
    requires ToUnsigned(p.sharkStarveTime) != 0 && ToUnsigned(p.sharkBreedingAge) != 0
    ensures WellFormed(t) && t.grid[i] == SharkColor
    ensures 0 < p.sharkStarveTime < 0x8000 ==> 0 <= t.health[i] < p.sharkStarveTime
    ensures 0 < p.sharkBreedingAge < 0x8000 ==> 0 <= t.countdown[i] < p.sharkBreedingAge
    ensures forall j :: 0 <= j < GridSize && j != i ==>
      t.grid[j] == s.grid[j] && t.health[j] == s.health[j] && t.countdown[j] == s.countdown[j]
  {
    Sea(s.grid[i := SharkColor],
        s.health[i := ToShort(URem(r1, p.sharkStarveTime))],
        s.countdown[i := ToShort(URem(r2, p.sharkBreedingAge))])
  }

  /** `bear_fish`: re-arm a parent's countdown to the breeding age less up to 4. */
  function BearFish(s: Sea, p: Params, baby: int, r: u32): (t: Sea)
    requires WellFormed(s) && 0 <= baby < GridSize
    ensures WellFormed(t) && t.grid == s.grid && t.health == s.health
    ensures 4 <= p.fishBreedingAge < 0x8000 ==>
      p.fishBreedingAge - 4 <= t.countdown[baby] <= p.fishBreedingAge
  {
    Sea(s.grid, s.health, s.countdown[baby := ToShort(p.fishBreedingAge - r % 5)])
  }

  /** `bear_shark`: a parent regains full health and re-arms its countdown to
      the breeding age less up to 4. */
  function BearShark(s: Sea, p: Params, baby: int, r: u32): (t: Sea)
    requires WellFormed(s) && 0 <= baby < GridSize
    ensures WellFormed(t) && t.grid == s.grid
    ensures -0x8000 <= p.sharkStarveTime < 0x8000 ==> t.health[baby] == p.sharkStarveTime
    ensures 4 <= p.sharkBreedingAge < 0x8000 ==>
      p.sharkBreedingAge - 4 <= t.countdown[baby] <= p.sharkBreedingAge
  {
    Sea(s.grid, s.health[baby := ToShort(p.sharkStarveTime)],
        s.countdown[baby := ToShort(p.sharkBreedingAge - r % 5)])
  }

  /** `move_fish` on values, given the neighbour `pick_neighbor4` chose among
      the empty ones (-1 for none). The countdown always drops by one. A fish
      with somewhere to go puts a fish there; if its countdown is still
      positive it leaves its cell empty, otherwise it stays as a re-armed
      parent and the child starts at the full breeding age. */
  function MoveFishNext(s: Sea, p: Params, fish: int, neighbor: int, r: u32): Sea
    requires WellFormed(s) && 0 <= fish < GridSize && -1 <= neighbor < GridSize
  {
    var countdown := ToShort(s.countdown[fish] - 1);
    var s1 := Sea(s.grid, s.health, s.countdown[fish := countdown]);
    if neighbor == -1 then s1
    else
      var s2 := Sea(s1.grid[neighbor := FishColor], s1.health, s1.countdown[neighbor := countdown]);
      if 0 < countdown then Sea(s2.grid[fish := Empty], s2.health, s2.countdown)
      else
        var s3 := BearFish(s2, p, fish, r);
        Sea(s3.grid, s3.health, s3.countdown[neighbor := ToShort(p.fishBreedingAge)])
  }

  /** `move_shark` on values, given the fish neighbour and the empty neighbour
      `pick_neighbor4` would choose (-1 for none). A shark whose health falls
      below zero dies. Otherwise it eats a fish if it can (regaining full
      health), else moves to an empty cell if it can, else stays. A moving
      shark takes its health along; with its countdown still positive it
      vacates its cell, otherwise it stays as a re-armed parent and the child
      starts at the full breeding age. */
  function MoveSharkNext(s: Sea, p: Params, shark: int, fishNeighbor: int, emptyNeighbor: int, r: u32): Sea
    requires WellFormed(s) && 0 <= shark < GridSize
    requires -1 <= fishNeighbor < GridSize && -1 <= emptyNeighbor < GridSize
  {
    var health := ToShort(s.health[shark] - 1);
    var s0 := Sea(s.grid, s.health[shark := health], s.countdown);
    if health < 0 then Sea(s0.grid[shark := Empty], s0.health, s0.countdown)
    else
      var countdown := ToShort(s0.countdown[shark] - 1);
      var s1 := Sea(s0.grid, s0.health, s0.countdown[shark := countdown]);
      var s2 := if fishNeighbor != -1
                then Sea(s1.grid, s1.health[shark := ToShort(p.sharkStarveTime)], s1.countdown)
                else s1;
      SharkSettles(s2, p, shark, if fishNeighbor != -1 then fishNeighbor else emptyNeighbor, r)
  }

  /** The end of `move_shark`: a shark with a neighbour to go to (-1 for
      none) puts a shark there that takes its health along; with its
      countdown positive it vacates its cell and hands the countdown on,
      otherwise it stays as a re-armed parent and the child starts at the
      full breeding age. */
  function SharkSettles(s: Sea, p: Params, shark: int, neighbor: int, r: u32): Sea
    requires WellFormed(s) && 0 <= shark < GridSize && -1 <= neighbor < GridSize
  {
    if neighbor == -1 then s
    else
      var s3 := Sea(s.grid[neighbor := SharkColor], s.health[neighbor := s.health[shark]], s.countdown);
      if 0 < s.countdown[shark] then
        Sea(s3.grid[shark := Empty], s3.health, s3.countdown[neighbor := s3.countdown[shark]])
      else
        var s4 := BearShark(s3, p, shark, r);
        Sea(s4.grid, s4.health, s4.countdown[neighbor := ToShort(p.sharkBreedingAge)])
  }

  /** What a fish's move does: its countdown drops by one; with no neighbour
      to go to nothing else changes; a moving fish with a positive countdown
      carries it to the neighbour and empties its old cell; a breeding fish
      stays, re-armed, and its child gets the full breeding age. */
  lemma {:induction false} MoveFishCases(s: Sea, p: Params, fish: int, neighbor: int, r: u32)
    requires WellFormed(s) && 0 <= fish < GridSize && -1 <= neighbor < GridSize && neighbor != fish
    requires -0x8000 <= p.fishBreedingAge < 0x8000
    ensures var t := MoveFishNext(s, p, fish, neighbor, r);
      var c := ToShort(s.countdown[fish] - 1);
      WellFormed(t) && t.health == s.health &&
      (neighbor == -1 ==> t.grid == s.grid && t.countdown == s.countdown[fish := c]) &&
      (neighbor != -1 && 0 < c ==>
         t.grid == s.grid[neighbor := FishColor][fish := Empty] &&
         t.countdown == s.countdown[fish := c][neighbor := c]) &&
      (neighbor != -1 && c <= 0 ==>
         t.grid == s.grid[neighbor := FishColor] &&
         t.countdown == s.countdown[fish := ToShort(p.fishBreedingAge - r % 5)][neighbor := p.fishBreedingAge])
  {
    var c := ToShort(s.countdown[fish] - 1);
    if neighbor != -1 && c <= 0 {
      var t := MoveFishNext(s, p, fish, neighbor, r);
      assert t.countdown == s.countdown[fish := c][neighbor := c][fish := ToShort(p.fishBreedingAge - r % 5)][neighbor := p.fishBreedingAge];
    }
  }

  /** What a shark's move does: it dies when its decremented health is
      negative; otherwise it prefers a fish neighbour (and then has full
      health), then an empty one; a moving shark carries its health to the new
      cell, and either vacates its cell (positive countdown, carried along) or
      breeds (the child gets the full breeding age). */
  lemma {:induction false} MoveSharkCases(s: Sea, p: Params, shark: int, fishNeighbor: int, emptyNeighbor: int, r: u32)
    requires WellFormed(s) && 0 <= shark < GridSize
    requires -1 <= fishNeighbor < GridSize && -1 <= emptyNeighbor < GridSize
    requires fishNeighbor != shark && emptyNeighbor != shark
    requires -0x8000 <= p.sharkStarveTime < 0x8000 && -0x8000 <= p.sharkBreedingAge < 0x8000
    ensures var t := MoveSharkNext(s, p, shark, fishNeighbor, emptyNeighbor, r);
      var h := ToShort(s.health[shark] - 1);
      var c := ToShort(s.countdown[shark] - 1);
      var nb := if fishNeighbor != -1 then fishNeighbor else emptyNeighbor;
      var h' := if fishNeighbor != -1 then p.sharkStarveTime else h;
      WellFormed(t) &&
      (h < 0 ==> t.grid == s.grid[shark := Empty] && t.countdown == s.countdown) &&
      (0 <= h && nb == -1 ==> t.grid == s.grid && t.countdown == s.countdown[shark := c] &&
                              t.health == s.health[shark := h]) &&
      (0 <= h && nb != -1 ==> t.grid[nb] == SharkColor && t.health[nb] == h') &&
      (0 <= h && nb != -1 && 0 < c ==>
         t.grid == s.grid[nb := SharkColor][shark := Empty] &&
         t.countdown == s.countdown[shark := c][nb := c]) &&
      (0 <= h && nb != -1 && c <= 0 ==>
         t.grid == s.grid[nb := SharkColor] && t.health[shark] == p.sharkStarveTime &&
         t.countdown[nb] == p.sharkBreedingAge)
  {
  }

  /** Every cell is empty, a fish or a shark. */
  predicate OnlyCritters(g: seq<int>)
  {
    forall i :: 0 <= i < |g| ==> g[i] == Empty || g[i] == FishColor || g[i] == SharkColor
  }

  /** Moves only ever write the three critter colours. */
  lemma {:induction false} MovesKeepCritters(s: Sea, p: Params, i: int, nb1: int, nb2: int, r: u32)
    requires WellFormed(s) && 0 <= i < GridSize && -1 <= nb1 < GridSize && -1 <= nb2 < GridSize
    requires OnlyCritters(s.grid)
    ensures OnlyCritters(MoveFishNext(s, p, i, nb1, r).grid)
    ensures OnlyCritters(MoveSharkNext(s, p, i, nb1, nb2, r).grid)
  {
    var f := MoveFishNext(s, p, i, nb1, r).grid;
    assert forall j :: 0 <= j < |f| ==> f[j] == s.grid[j] || f[j] == Empty || f[j] == FishColor;
    var h := MoveSharkNext(s, p, i, nb1, nb2, r).grid;
    assert forall j :: 0 <= j < |h| ==> h[j] == s.grid[j] || h[j] == Empty || h[j] == SharkColor;
  }

  /** The end of `move_shark` on the arrays, with `c` the shark's new
      countdown. */
  method SettleShark(grid: array<int>, health: array<int>, countdown: array<int>, p: Params,
                     shark: int, neighbor: int, c: int, r3: u32)
    requires grid.Length == GridSize && health.Length == GridSize && countdown.Length == GridSize
    requires grid != health && grid != countdown && health != countdown
    requires 0 <= shark < GridSize && -1 <= neighbor < GridSize && c == countdown[shark]
    modifies grid, health, countdown
    ensures Sea(grid[..], health[..], countdown[..]) ==
      SharkSettles(Sea(old(grid[..]), old(health[..]), old(countdown[..])), p, shark, neighbor, r3)
  {
    if -1 != neighbor {
      grid[neighbor] := SharkColor;
      health[neighbor] := health[shark];
      if 0 < c {
        grid[shark] := Empty;
        countdown[neighbor] := countdown[shark];
      } else {
        health[shark] := ToShort(p.sharkStarveTime);
        countdown[shark] := ToShort(p.sharkBreedingAge - r3 % 5);
        countdown[neighbor] := ToShort(p.sharkBreedingAge);
      }
    }
  }

  /** `make_fish` on the arrays. */
  method MakeFishAt(grid: array<int>, countdown: array<int>, p: Params, i: int, r: u32)
    requires grid.Length == GridSize && countdown.Length == GridSize && grid != countdown
    requires 0 <= i < GridSize && ToUnsigned(p.fishBreedingAge) != 0
    modifies grid, countdown
    ensures grid[..] == old(grid[..])[i := FishColor]
    ensures countdown[..] == old(countdown[..])[i := ToShort(URem(r, p.fishBreedingAge))]
  {
    countdown[i] := ToShort(URem(r, p.fishBreedingAge));
    grid[i] := FishColor;
  }

  /** `make_shark` on the arrays. */
  method MakeSharkAt(grid: array<int>, health: array<int>, countdown: array<int>, p: Params, i: int, r1: u32, r2: u32)
    requires grid.Length == GridSize && health.Length == GridSize && countdown.Length == GridSize
    requires grid != health && grid != countdown && health != countdown
    requires 0 <= i < GridSize
    requires ToUnsigned(p.sharkStarveTime) != 0 && ToUnsigned(p.sharkBreedingAge) != 0
    modifies grid, health, countdown
    ensures Sea(grid[..], health[..], countdown[..]) ==
      MakeShark(Sea(old(grid[..]), old(health[..]), old(countdown[..])), p, i, r1, r2)
  {
    health[i] := ToShort(URem(r1, p.sharkStarveTime));
    countdown[i] := ToShort(URem(r2, p.sharkBreedingAge));
    grid[i] := SharkColor;
  }

  /** `move_fish` on the arrays: the neighbour is picked with `r1`, a breeding
      parent is re-armed with `r2`. */
  method MoveFish(grid: array<int>, health: array<int>, countdown: array<int>, p: Params,
                  fish: int, x: int, y: int, r1: u32, r2: u32)
    requires grid.Length == GridSize && health.Length == GridSize && countdown.Length == GridSize
    requires grid != health && grid != countdown && health != countdown
    requires 0 <= x < GridWidth && 0 <= y < GridHeight && fish == At(x, y)
    modifies grid, countdown
    ensures exists nb :: (-1 <= nb < GridSize && ChosenNeighbor(old(grid[..]), x, y, Empty, nb) &&
                          Sea(grid[..], health[..], countdown[..]) ==
                            MoveFishNext(Sea(old(grid[..]), health[..], old(countdown[..])), p, fish, nb, r2))
  {
    ghost var s := Sea(grid[..], health[..], countdown[..]);
    var c := ToShort(countdown[fish] - 1);
    countdown[fish] := c;
    var neighbor := PickNeighbor4(grid, x, y, Empty, r1);
    if -1 != neighbor {
      grid[neighbor] := FishColor;
      countdown[neighbor] := c;
      if 0 < c {
        grid[fish] := Empty;
      } else {
        countdown[fish] := ToShort(p.fishBreedingAge - r2 % 5);
        countdown[neighbor] := ToShort(p.fishBreedingAge);
      }
    }
    assert ChosenNeighbor(s.grid, x, y, Empty, neighbor);
  }

  /** `nb` is a choice `pick_neighbor4` can make: -1 when no orthogonal
      neighbour has the colour, otherwise one that has. */
  ghost predicate ChosenNeighbor(g: seq<int>, x: int, y: int, color: int, nb: int)
    requires |g| == GridSize && 0 <= x < GridWidth && 0 <= y < GridHeight
  {
    (nb == -1 <==> forall k :: 0 <= k < 4 ==> g[Neighbor4(x, y, k)] != color) &&
    (nb != -1 ==> exists k :: 0 <= k < 4 && nb == Neighbor4(x, y, k) && g[nb] == color)
  }

  /** A choice `pick_neighbor4` can make: the first matching neighbour. */
  ghost function FirstNeighbor(g: seq<int>, x: int, y: int, color: int): (nb: int)
    requires |g| == GridSize && 0 <= x < GridWidth && 0 <= y < GridHeight
    ensures -1 <= nb < GridSize && ChosenNeighbor(g, x, y, color, nb)
  {
    MatchingNeighborsMeaning(g, x, y, color, 4);
    var l := MatchingNeighbors(g, x, y, color, 4);
    if |l| > 0 then (assert l[0] in l; l[0]) else -1
  }

  /** `move_shark` on the arrays: the fish neighbour is picked with `r1`, the
      empty one (when there is no fish) with `r2`, a breeding parent is
      re-armed with `r3`. */
  method MoveShark(grid: array<int>, health: array<int>, countdown: array<int>, p: Params,
                   shark: int, x: int, y: int, r1: u32, r2: u32, r3: u32)
    requires grid.Length == GridSize && health.Length == GridSize && countdown.Length == GridSize
    requires grid != health && grid != countdown && health != countdown
    requires 0 <= x < GridWidth && 0 <= y < GridHeight && shark == At(x, y)
    modifies grid, health, countdown
    ensures exists fnb, enb :: (-1 <= fnb < GridSize && -1 <= enb < GridSize &&
                                ChosenNeighbor(old(grid[..]), x, y, FishColor, fnb) &&
                                (fnb == -1 ==> ChosenNeighbor(old(grid[..]), x, y, Empty, enb)) &&
                                Sea(grid[..], health[..], countdown[..]) ==
                                  MoveSharkNext(Sea(old(grid[..]), old(health[..]), old(countdown[..])),
                                                p, shark, fnb, enb, r3))
  {
    ghost var s := Sea(grid[..], health[..], countdown[..]);
    var h := ToShort(health[shark] - 1);
    health[shark] := h;
    if h < 0 {
      grid[shark] := Empty;
      ghost var fnb := FirstNeighbor(s.grid, x, y, FishColor);
      ghost var enb := FirstNeighbor(s.grid, x, y, Empty);
      assert grid[..] == s.grid[shark := Empty];
      assert Sea(grid[..], health[..], countdown[..]) == MoveSharkNext(s, p, shark, fnb, enb, r3);
    } else {
      var c := ToShort(countdown[shark] - 1);
      countdown[shark] := c;
      var fnb := PickNeighbor4(grid, x, y, FishColor, r1);
      var neighbor := fnb;
      var enb := -1;
      if -1 != neighbor {
        health[shark] := ToShort(p.sharkStarveTime);
      } else {
        enb := PickNeighbor4(grid, x, y, Empty, r2);
        neighbor := enb;
      }
      ghost var s2 := Sea(grid[..], health[..], countdown[..]);
      SettleShark(grid, health, countdown, p, shark, neighbor, c, r3);
      assert ChosenNeighbor(s.grid, x, y, FishColor, fnb);
      assert fnb == -1 ==> ChosenNeighbor(s.grid, x, y, Empty, enb);
      assert Sea(grid[..], health[..], countdown[..]) == MoveSharkNext(s, p, shark, fnb, enb, r3);
    }
  }

  /** `tick`: every fish listed at the start moves once, and only then every
      shark listed after the fish have moved. The `k`-th visit of a pass draws
      `rand(3k)`, `rand(3k + 1)` and `rand(3k + 2)`. */
  method Tick(grid: array<int>, health: array<int>, countdown: array<int>, list: array<int>,
              p: Params, randFish: nat -> u32, randShark: nat -> u32)
    requires grid.Length == GridSize && health.Length == GridSize && countdown.Length == GridSize
    requires list.Length == GridSize
    requires grid != health && grid != countdown && health != countdown
    requires list != grid && list != health && list != countdown
    requires OnlyCritters(grid[..])
    modifies grid, health, countdown, list
    ensures OnlyCritters(grid[..])
  {
    var fish := ForAllTurtlesOrder(grid, FishColor, list);
    VisitOrderOfPatches(grid[..], FishColor);
    assert forall m :: 0 <= m < |fish| ==> fish[m] in fish;
    var k := 0;
    while k < |fish|
      invariant 0 <= k <= |fish|
      invariant forall m :: 0 <= m < |fish| ==> 0 <= fish[m] < GridSize
      invariant OnlyCritters(grid[..])
    {
      var j := fish[k];
      AtCovers(j);
      ghost var s := Sea(grid[..], health[..], countdown[..]);
      MoveFish(grid, health, countdown, p, j, j % GridWidth, j / GridWidth, randFish(3 * k), randFish(3 * k + 1));
      ghost var nb :| -1 <= nb < GridSize && grid[..] == MoveFishNext(s, p, j, nb, randFish(3 * k + 1)).grid;
      MovesKeepCritters(s, p, j, nb, -1, randFish(3 * k + 1));
      k := k + 1;
    }
    var sharks := ForAllTurtlesOrder(grid, SharkColor, list);
    VisitOrderOfPatches(grid[..], SharkColor);
    assert forall m :: 0 <= m < |sharks| ==> sharks[m] in sharks;
    k := 0;
    while k < |sharks|
      invariant 0 <= k <= |sharks|
      invariant forall m :: 0 <= m < |sharks| ==> 0 <= sharks[m] < GridSize
      invariant OnlyCritters(grid[..])
    {
      var j := sharks[k];
      AtCovers(j);
      ghost var s := Sea(grid[..], health[..], countdown[..]);
      MoveShark(grid, health, countdown, p, j, j % GridWidth, j / GridWidth,
                randShark(3 * k), randShark(3 * k + 1), randShark(3 * k + 2));
      ghost var fnb, enb :| -1 <= fnb < GridSize && -1 <= enb < GridSize &&
        grid[..] == MoveSharkNext(s, p, j, fnb, enb, randShark(3 * k + 2)).grid;
      MovesKeepCritters(s, p, j, fnb, enb, randShark(3 * k + 2));
      k := k + 1;
    }
  }
}
