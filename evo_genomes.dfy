/** The population of genetic programs, one per thumbnail on the screen,
    and the thumbnail cache: fresh random programs, mutation, copying, and
    the flags saying which thumbnails are up to date. Random numbers come
    from a stream `rand`, read in the order the source draws them. */
module EvoGenomes {
  import opened Cells
  import opened EvoNodes
  import opened EvoCompile
  import opened Screen

  /** Percent chance that `mutate` changes an instruction. */
  const MutationRate: int := 15
  const TileWidth: int := 32
  const TileHeight: int := 32
  /** Tiles across and down one thumbnail. */
  const ThumbCols: int := 4
  const ThumbRows: int := 4
  /** Thumbnails across and down the screen. */
  const Cols: int := 8
  const Rows: int := 6
  /** Pixels across and down one thumbnail. */
  const ThumbWidth: int := 128
  const ThumbHeight: int := 128

  /** The derived constants as the source computes them: the screen holds
      a whole number of thumbnails, each a whole number of tiles. */
  lemma Dimensions()
    ensures Cols == GridWidth / (TileWidth * ThumbCols) && Rows == GridHeight / (TileHeight * ThumbRows)
    ensures ThumbWidth == GridWidth / Cols && ThumbHeight == GridHeight / Rows
    ensures Cols * ThumbWidth == GridWidth && Rows * ThumbHeight == GridHeight
  {
  }

  /** The coordinates `check_coords` lets through; any others kill the
      process. */
  predicate CoordsOk(col: int, row: int)
  {
    0 <= col < Cols && 0 <= row < Rows
  }

  /** `choose(n)`: the draw r reduced modulo n. */
  function Choose(r: u32, n: int): (c: int)
    requires 0 < n
    ensures 0 <= c < n
  {
    r % n
  }

  /** The instruction of static storage before any program is drawn: all
      zero, which is an `end`. */
  const Blank: Instruc := Instruc(0, End, 0, 0, 0, "", 0)

  /** An instruction, and the index of the first draw not yet used. */
  datatype Drawn = Drawn(ins: Instruc, next: nat)

  /** `random_instruc` drawing from `tools` (the toolbox) and reading the
      stream at k: one draw picks the tool, and a constant takes one more
      for its value. */
  function RandomFrom(tools: seq<Instruc>, rand: nat -> u32, k: nat): (d: Drawn)
    requires Drawable(tools)
    ensures Pretendable(d.ins) && k < d.next <= k + 2
  {
    var ins := RandomChoice(tools, rand(k), rand(k + 1));
    Drawn(ins, if ins.kind == Constant then k + 2 else k + 1)
  }

  /** `point_mutation` reading the stream at k. A constant takes a draw
      and, on a coin below 50, keeps its kind and has its value nudged by
      a further draw; `nudge` stands for the floating-point update of the
      value's bits. Anything else, and a constant losing the coin, is
      replaced by a random instruction. */
  function PointMutation(tools: seq<Instruc>, ins: Instruc, rand: nat -> u32, k: nat, nudge: (u32, u32) -> u32): (d: Drawn)
    requires Drawable(tools)
    ensures Pretendable(ins) || ins.kind != Constant ==> Pretendable(d.ins)
    ensures ins.kind != Constant ==> d == RandomFrom(tools, rand, k)
    ensures k < d.next <= k + 3
  {
    if ins.kind != Constant then RandomFrom(tools, rand, k)
    else if Choose(rand(k), 100) < 50 then Drawn(ins.(constant := nudge(ins.constant, rand(k + 1))), k + 2)
    else RandomFrom(tools, rand, k + 1)
  }

  /** A stored instruction: an `end`, or one the symbolic stack can run. */
  predicate GeneOk(p: Instruc)
  {
    p.kind == End || Pretendable(p)
  }

  /** A stored program: `program_length` instructions, the last an `end`. */
  predicate GenesOk(block: seq<Instruc>)
  {
    forall i :: 0 <= i < |block| ==> GeneOk(block[i])
  }

  predicate GenomeOk(block: seq<Instruc>)
  {
    |block| == ProgramLength && block[ProgramLength - 1].kind == End && GenesOk(block)
  }

  /** Every stored program can be compiled. */
  lemma GenomeCompiles(block: seq<Instruc>)
    requires GenomeOk(block)
    ensures Compilable(block) && FirstEnd(block, 0) < ProgramLength
  {
    assert block[ProgramLength - 1].kind == End;
  }

  /** `randomize` from instruction i on, the next draw at k: every
      instruction up to the last but one is drawn afresh, and the last
      becomes `end` (only its kind is set). */
  function RandomizeFrom(tools: seq<Instruc>, block: seq<Instruc>, i: nat, rand: nat -> u32, k: nat): (r: seq<Instruc>)
    requires Drawable(tools) && i < |block|
    ensures |r| == |block|
    decreases |block| - i
  {
    if i == |block| - 1 then block[i := block[i].(kind := End)]
    else
      var d := RandomFrom(tools, rand, k);
      RandomizeFrom(tools, block[i := d.ins], i + 1, rand, d.next)
  }

  /** Randomizing leaves the instructions before i alone. */
  lemma {:induction false} RandomizeFromKeepsPrefix(tools: seq<Instruc>, block: seq<Instruc>, i: nat, rand: nat -> u32, k: nat)
    requires Drawable(tools) && i < |block|
    ensures RandomizeFrom(tools, block, i, rand, k)[..i] == block[..i]
    decreases |block| - i
  {
    var r := RandomizeFrom(tools, block, i, rand, k);
    if i == |block| - 1 {
      assert r == block[i := block[i].(kind := End)];
      assert r[..i] == block[..i];
    } else {
      var d := RandomFrom(tools, rand, k);
      var b := block[i := d.ins];
      assert r == RandomizeFrom(tools, b, i + 1, rand, d.next);
      RandomizeFromKeepsPrefix(tools, b, i + 1, rand, d.next);
      assert r[..i] == r[..i + 1][..i] == b[..i] == block[..i];
    }
  }

  /** Randomizing turns only the kind of the last instruction into `end`. */
  lemma {:induction false} RandomizeFromLast(tools: seq<Instruc>, block: seq<Instruc>, i: nat, rand: nat -> u32, k: nat)
    requires Drawable(tools) && i < |block|
    ensures RandomizeFrom(tools, block, i, rand, k)[|block| - 1] == block[|block| - 1].(kind := End)
    decreases |block| - i
  {
    if i < |block| - 1 {
      var d := RandomFrom(tools, rand, k);
      var b := block[i := d.ins];
      assert RandomizeFrom(tools, b, i + 1, rand, d.next) == RandomizeFrom(tools, block, i, rand, k);
      RandomizeFromLast(tools, b, i + 1, rand, d.next);
      assert b[|b| - 1] == block[|block| - 1];
    }
  }

  /** Randomizing draws a runnable instruction at every place from i up to
      the last but one. */
  lemma {:induction false} RandomizeFromDraws(tools: seq<Instruc>, block: seq<Instruc>, i: nat, rand: nat -> u32, k: nat)
    requires Drawable(tools) && i < |block|
    ensures var r := RandomizeFrom(tools, block, i, rand, k);
      forall j :: i <= j < |r| - 1 ==> Pretendable(r[j])
    decreases |block| - i
  {
    if i < |block| - 1 {
      var d := RandomFrom(tools, rand, k);
      var b := block[i := d.ins];
      var r := RandomizeFrom(tools, b, i + 1, rand, d.next);
      assert r == RandomizeFrom(tools, block, i, rand, k);
      RandomizeFromDraws(tools, b, i + 1, rand, d.next);
      RandomizeFromKeepsPrefix(tools, b, i + 1, rand, d.next);
      assert r[i] == r[..i + 1][i] == b[i] == d.ins;
    }
  }

  /** A randomized program is a stored program whose first `end` is its
      last instruction, so `compile` runs all of the others. */
  lemma RandomizedCompiles(tools: seq<Instruc>, block: seq<Instruc>, rand: nat -> u32)
    requires Drawable(tools) && |block| == ProgramLength
    ensures var r := RandomizeFrom(tools, block, 0, rand, 0);
      GenomeOk(r) && Compilable(r) && FirstEnd(r, 0) == ProgramLength - 1
  {
    var r := RandomizeFrom(tools, block, 0, rand, 0);
    RandomizeFromLast(tools, block, 0, rand, 0);
    RandomizeFromDraws(tools, block, 0, rand, 0);
    assert r[ProgramLength - 1].kind == End;
    assert forall j :: 0 <= j < ProgramLength - 1 ==> r[j].kind != End;
    assert GenesOk(r);
    GenomeCompiles(r);
  }

  /** `mutate` from instruction i on, the next draw at k: each instruction
      but the last takes a draw and is changed by `point_mutation` when it
      falls below `mutation_rate`. */
  function MutateFrom(tools: seq<Instruc>, block: seq<Instruc>, i: nat, rand: nat -> u32, k: nat, nudge: (u32, u32) -> u32): (r: seq<Instruc>)
    requires Drawable(tools) && i < |block|
    ensures |r| == |block|
    decreases |block| - i
  {
    if i == |block| - 1 then block
    else if Choose(rand(k), 100) < MutationRate then
      var d := PointMutation(tools, block[i], rand, k + 1, nudge);
      MutateFrom(tools, block[i := d.ins], i + 1, rand, d.next, nudge)
    else MutateFrom(tools, block, i + 1, rand, k + 1, nudge)
  }

  /** Mutation never touches the instructions before i. */
  lemma {:induction false} MutateFromKeepsPrefix(tools: seq<Instruc>, block: seq<Instruc>, i: nat, rand: nat -> u32, k: nat, nudge: (u32, u32) -> u32)
    requires Drawable(tools) && i < |block|
    ensures MutateFrom(tools, block, i, rand, k, nudge)[..i] == block[..i]
    decreases |block| - i
  {
    if i == |block| - 1 {
      assert MutateFrom(tools, block, i, rand, k, nudge) == block;
    } else if Choose(rand(k), 100) < MutationRate {
      var d := PointMutation(tools, block[i], rand, k + 1, nudge);
      var b := block[i := d.ins];
      var r := MutateFrom(tools, b, i + 1, rand, d.next, nudge);
      assert r == MutateFrom(tools, block, i, rand, k, nudge);
      MutateFromKeepsPrefix(tools, b, i + 1, rand, d.next, nudge);
      assert r[..i] == r[..i + 1][..i] == b[..i] == block[..i];
    } else {
      var r := MutateFrom(tools, block, i + 1, rand, k + 1, nudge);
      assert r == MutateFrom(tools, block, i, rand, k, nudge);
      MutateFromKeepsPrefix(tools, block, i + 1, rand, k + 1, nudge);
      assert r[..i] == r[..i + 1][..i];
    }
  }

  /** Mutation never touches the last instruction. */
  lemma {:induction false} MutateFromKeepsLast(tools: seq<Instruc>, block: seq<Instruc>, i: nat, rand: nat -> u32, k: nat, nudge: (u32, u32) -> u32)
    requires Drawable(tools) && i < |block|
    ensures MutateFrom(tools, block, i, rand, k, nudge)[|block| - 1] == block[|block| - 1]
    decreases |block| - i
  {
    if i == |block| - 1 {
      assert MutateFrom(tools, block, i, rand, k, nudge) == block;
    } else if Choose(rand(k), 100) < MutationRate {
      var d := PointMutation(tools, block[i], rand, k + 1, nudge);
      var b := block[i := d.ins];
      assert MutateFrom(tools, b, i + 1, rand, d.next, nudge) == MutateFrom(tools, block, i, rand, k, nudge);
      MutateFromKeepsLast(tools, b, i + 1, rand, d.next, nudge);
      assert b[|b| - 1] == block[|block| - 1];
    } else {
      assert MutateFrom(tools, block, i + 1, rand, k + 1, nudge) == MutateFrom(tools, block, i, rand, k, nudge);
      MutateFromKeepsLast(tools, block, i + 1, rand, k + 1, nudge);
    }
  }

  /** Mutation keeps every instruction storable. */
  lemma {:induction false} MutateFromGenes(tools: seq<Instruc>, block: seq<Instruc>, i: nat, rand: nat -> u32, k: nat, nudge: (u32, u32) -> u32)
    requires Drawable(tools) && i < |block| && GenesOk(block)
    ensures GenesOk(MutateFrom(tools, block, i, rand, k, nudge))
    decreases |block| - i
  {
    if i < |block| - 1 {
      if Choose(rand(k), 100) < MutationRate {
        var d := PointMutation(tools, block[i], rand, k + 1, nudge);
        var b := block[i := d.ins];
        assert GeneOk(d.ins);
        assert forall j :: 0 <= j < |b| ==> GeneOk(b[j]);
        assert GenesOk(b);
        assert MutateFrom(tools, b, i + 1, rand, d.next, nudge) == MutateFrom(tools, block, i, rand, k, nudge);
        MutateFromGenes(tools, b, i + 1, rand, d.next, nudge);
      } else {
        assert MutateFrom(tools, block, i + 1, rand, k + 1, nudge) == MutateFrom(tools, block, i, rand, k, nudge);
        MutateFromGenes(tools, block, i + 1, rand, k + 1, nudge);
      }
    }
  }

  /** A mutated stored program is still a stored program. */
  lemma MutatedStaysOk(tools: seq<Instruc>, block: seq<Instruc>, rand: nat -> u32, nudge: (u32, u32) -> u32)
    requires Drawable(tools) && GenomeOk(block)
    ensures GenomeOk(MutateFrom(tools, block, 0, rand, 0, nudge))
  {
    MutateFromKeepsLast(tools, block, 0, rand, 0, nudge);
    MutateFromGenes(tools, block, 0, rand, 0, nudge);
  }

  /** When no test draw falls below `mutation_rate` the program is
      unchanged. */
  lemma {:induction false} MutateFromNoHits(tools: seq<Instruc>, block: seq<Instruc>, i: nat, rand: nat -> u32, k: nat, nudge: (u32, u32) -> u32)
    requires Drawable(tools) && i < |block| && forall n :: k <= n ==> Choose(rand(n), 100) >= MutationRate
    ensures MutateFrom(tools, block, i, rand, k, nudge) == block
    decreases |block| - i
  {
    if i < |block| - 1 {
      MutateFromNoHits(tools, block, i + 1, rand, k + 1, nudge);
    }
  }

  /** The pixel (x, y) lies in the thumbnail of program (col, row). */
  predicate InThumb(x: int, y: int, col: int, row: int)
  {
    col * ThumbWidth <= x < col * ThumbWidth + ThumbWidth &&
    row * ThumbHeight <= y < row * ThumbHeight + ThumbHeight
  }

  /** `copy_grid_square`: the pixels of thumbnail (col, row) are copied
      from `src` to `dest`, and no others. */
  method CopyGridSquare(dest: array<int>, src: array<int>, col: int, row: int)
    requires dest.Length == GridSize && src.Length == GridSize && dest != src && CoordsOk(col, row)
    modifies dest
    ensures forall x, y :: 0 <= x < GridWidth && 0 <= y < GridHeight ==>
      dest[At(x, y)] == if InThumb(x, y, col, row) then src[At(x, y)] else old(dest[At(x, y)])
  {
    var x0, y0 := col * ThumbWidth, row * ThumbHeight;
    var y := y0;
    while y < y0 + ThumbHeight
      invariant y0 <= y <= y0 + ThumbHeight
      invariant forall x', y' :: 0 <= x' < GridWidth && 0 <= y' < GridHeight ==>
        dest[At(x', y')] == if InThumb(x', y', col, row) && y' < y then src[At(x', y')] else old(dest[At(x', y')])
    {
      var x := x0;
      while x < x0 + ThumbWidth
        invariant x0 <= x <= x0 + ThumbWidth
        invariant forall x', y' :: 0 <= x' < GridWidth && 0 <= y' < GridHeight ==>
          dest[At(x', y')] == if InThumb(x', y', col, row) && (y' < y || (y' == y && x' < x))
                              then src[At(x', y')] else old(dest[At(x', y')])
      {
        var j := y * GridWidth + x;
        dest[j] := src[j];
        x := x + 1;
      }
      y := y + 1;
    }
  }

  /** The programs, `programs[cols][rows][program_length]`; the flags
      `cache_valid[cols][rows]`; and the cached thumbnails, laid out like
      the screen. The ghost map records, for each thumbnail in the cache,
      the program it was drawn from. */
  class Population {
    var programs: array3<Instruc>
    var cacheValid: array2<bool>
    var thumbnailCache: array<int>
    ghost var drawnFrom: map<(int, int), seq<Instruc>>

    ghost predicate Shaped()
      reads this
    {
      programs.Length0 == Cols && programs.Length1 == Rows && programs.Length2 == ProgramLength &&
      cacheValid.Length0 == Cols && cacheValid.Length1 == Rows && thumbnailCache.Length == GridSize
    }

    /** Every stored instruction can be run or is an `end`, and every
      program ends in `end`. */
    ghost predicate GenesOk()
      reads this, programs
      requires Shaped()
    {
      forall c, r, i :: 0 <= c < Cols && 0 <= r < Rows && 0 <= i < ProgramLength ==>
        GeneOk(programs[c, r, i]) && (i == ProgramLength - 1 ==> programs[c, r, i].kind == End)
    }

    /** A thumbnail marked valid was drawn from the program as it is now. */
    ghost predicate CacheFresh()
      reads this, programs, cacheValid
      requires Shaped()
    {
      forall c, r :: 0 <= c < Cols && 0 <= r < Rows && cacheValid[c, r] ==>
        (c, r) in drawnFrom && |drawnFrom[(c, r)]| == ProgramLength &&
        forall i :: 0 <= i < ProgramLength ==> drawnFrom[(c, r)][i] == programs[c, r, i]
    }

    ghost predicate Valid()
      reads this, programs, cacheValid
    {
      Shaped() && GenesOk() && CacheFresh()
    }

    /** Program (col, row). */
    ghost function Program(col: int, row: int): (block: seq<Instruc>)
      reads this`programs, programs
      requires programs.Length0 == Cols && programs.Length1 == Rows && programs.Length2 == ProgramLength
      requires CoordsOk(col, row)
      ensures |block| == ProgramLength
    {
      var a := programs;
      seq(ProgramLength, i requires 0 <= i < ProgramLength reads a => a[col, row, i])
    }

    /** Every program but (col, row) is as it was. */
    twostate predicate OthersKept(col: int, row: int)
      reads this, programs
      requires Shaped() && old(Shaped()) && programs == old(programs)
    {
      forall c, r, i :: 0 <= c < Cols && 0 <= r < Rows && 0 <= i < ProgramLength && (c != col || r != row) ==>
        programs[c, r, i] == old(programs[c, r, i])
    }

    /** Static storage: every instruction zero, no thumbnail cached. */
    constructor ()
      ensures Valid() && fresh(programs) && fresh(cacheValid) && fresh(thumbnailCache)
      ensures forall c, r, i :: 0 <= c < Cols && 0 <= r < Rows && 0 <= i < ProgramLength ==> programs[c, r, i] == Blank
      ensures forall c, r :: 0 <= c < Cols && 0 <= r < Rows ==> !cacheValid[c, r]
    {
      programs := new Instruc[Cols, Rows, ProgramLength]((c, r, i) => Blank);
      cacheValid := new bool[Cols, Rows]((c, r) => false);
      thumbnailCache := new int[GridSize](_ => 0);
      drawnFrom := map[];
    }

    /** Every program is a stored program. */
    lemma ProgramOk(col: int, row: int)
      requires Shaped() && GenesOk() && CoordsOk(col, row)
      ensures GenomeOk(Program(col, row))
    {
    }

    /** `randomize` on program (col, row), reading the stream from 0. */
    /** One turn of the loop of `randomize`: instruction i becomes a
        random instruction drawn at k; returns the next unused draw. */
    method RandomizeStep(col: int, row: int, tools: seq<Instruc>, i: int, rand: nat -> u32, k: nat)
      returns (next: nat)
      requires Drawable(tools) && Shaped() && CoordsOk(col, row) && 0 <= i < ProgramLength - 1
      modifies programs
      ensures OthersKept(col, row)
      ensures RandomizeFrom(tools, Program(col, row), i + 1, rand, next) ==
              RandomizeFrom(tools, old(Program(col, row)), i, rand, k)
    {
      ghost var block := Program(col, row);
      var ins := RandomInstruc(tools, rand(k), rand(k + 1));
      programs[col, row, i] := ins;
      assert Program(col, row) == block[i := ins];
      next := if ins.kind == Constant then k + 2 else k + 1;
    }

    method Randomize(col: int, row: int, tools: seq<Instruc>, rand: nat -> u32)
      requires Drawable(tools) && Shaped() && GenesOk() && CoordsOk(col, row)
      modifies programs
      ensures Shaped() && GenesOk()
      ensures OthersKept(col, row)
      ensures Program(col, row) == RandomizeFrom(tools, old(Program(col, row)), 0, rand, 0)
    {
      ghost var before := Program(col, row);
      var i, k := 0, 0;
      while i < ProgramLength - 1
        invariant 0 <= i <= ProgramLength - 1 && OthersKept(col, row)
        invariant RandomizeFrom(tools, Program(col, row), i, rand, k) == RandomizeFrom(tools, before, 0, rand, 0)
      {
        k := RandomizeStep(col, row, tools, i, rand, k);
        i := i + 1;
      }
      ghost var block := Program(col, row);
      var last := programs[col, row, ProgramLength - 1];
      programs[col, row, ProgramLength - 1] := last.(kind := End);
      assert Program(col, row) == block[ProgramLength - 1 := last.(kind := End)];
      RandomizedCompiles(tools, before, rand);
      forall c, r, j | 0 <= c < Cols && 0 <= r < Rows && 0 <= j < ProgramLength
        ensures GeneOk(programs[c, r, j]) && (j == ProgramLength - 1 ==> programs[c, r, j].kind == End)
      {
        if c == col && r == row {
          assert programs[c, r, j] == Program(col, row)[j];
        } else {
          assert programs[c, r, j] == old(programs[c, r, j]);
        }
      }
    }

    /** `point_mutation` of instruction i of program (col, row), reading
      the stream at k; returns the next unused draw. */
    method PointMutate(col: int, row: int, tools: seq<Instruc>, i: int, rand: nat -> u32, k: nat, nudge: (u32, u32) -> u32)
      returns (next: nat)
      requires Drawable(tools) && Shaped() && CoordsOk(col, row) && 0 <= i < ProgramLength - 1
      modifies programs
      ensures OthersKept(col, row)
      ensures var d := PointMutation(tools, old(programs[col, row, i]), rand, k, nudge);
        Program(col, row) == old(Program(col, row))[i := d.ins] && next == d.next
    {
      ghost var block := Program(col, row);
      var ins := programs[col, row, i];
      ghost var d := PointMutation(tools, ins, rand, k, nudge);
      if ins.kind == Constant && Choose(rand(k), 100) < 50 {
        programs[col, row, i] := ins.(constant := nudge(ins.constant, rand(k + 1)));
        next := k + 2;
      } else {
        var draw := if ins.kind == Constant then k + 1 else k;
        var drawn := RandomInstruc(tools, rand(draw), rand(draw + 1));
        programs[col, row, i] := drawn;
        next := if drawn.kind == Constant then draw + 2 else draw + 1;
      }
      assert Program(col, row) == block[i := d.ins];
    }

    /** One turn of the loop of `mutate`: instruction i takes a draw at k
      and is changed by `point_mutation` when the draw falls below
      MutationRate; returns the next unused draw. */
    method MutateStep(col: int, row: int, tools: seq<Instruc>, i: int, rand: nat -> u32, k: nat, nudge: (u32, u32) -> u32)
      returns (next: nat)
      requires Drawable(tools) && Shaped() && CoordsOk(col, row) && 0 <= i < ProgramLength - 1
      modifies programs
      ensures OthersKept(col, row)
      ensures MutateFrom(tools, Program(col, row), i + 1, rand, next, nudge) ==
              MutateFrom(tools, old(Program(col, row)), i, rand, k, nudge)
    {
      ghost var block := Program(col, row);
      if Choose(rand(k), 100) < MutationRate {
        ghost var d := PointMutation(tools, block[i], rand, k + 1, nudge);
        next := PointMutate(col, row, tools, i, rand, k + 1, nudge);
        assert Program(col, row) == block[i := d.ins];
      } else {
        next := k + 1;
      }
    }

    /** The loop of `mutate`: each instruction but the last is mutated with
      probability MutationRate percent. */
    method MutateLoop(col: int, row: int, tools: seq<Instruc>, rand: nat -> u32, nudge: (u32, u32) -> u32)
      requires Drawable(tools) && Shaped() && CoordsOk(col, row)
      modifies programs
      ensures OthersKept(col, row)
      ensures Program(col, row) == MutateFrom(tools, old(Program(col, row)), 0, rand, 0, nudge)
    {
      ghost var before := Program(col, row);
      var i, k := 0, 0;
      while i < ProgramLength - 1
        invariant 0 <= i <= ProgramLength - 1 && OthersKept(col, row)
        invariant MutateFrom(tools, Program(col, row), i, rand, k, nudge) == MutateFrom(tools, before, 0, rand, 0, nudge)
      {
        k := MutateStep(col, row, tools, i, rand, k, nudge);
        i := i + 1;
      }
    }

    /** `mutate` on program (col, row), reading the stream from 0; the
      mutated program still compiles and the others are untouched. */
    method Mutate(col: int, row: int, tools: seq<Instruc>, rand: nat -> u32, nudge: (u32, u32) -> u32)
      requires Drawable(tools) && Shaped() && GenesOk() && CoordsOk(col, row)
      modifies programs
      ensures Shaped() && GenesOk() && OthersKept(col, row)
      ensures Program(col, row) == MutateFrom(tools, old(Program(col, row)), 0, rand, 0, nudge)
    {
      ghost var before := Program(col, row);
      ProgramOk(col, row);
      MutateLoop(col, row, tools, rand, nudge);
      MutatedStaysOk(tools, before, rand, nudge);
      forall c, r, j | 0 <= c < Cols && 0 <= r < Rows && 0 <= j < ProgramLength
        ensures GeneOk(programs[c, r, j]) && (j == ProgramLength - 1 ==> programs[c, r, j].kind == End)
      {
        if c == col && r == row {
          assert programs[c, r, j] == Program(col, row)[j];
        } else {
          assert programs[c, r, j] == old(programs[c, r, j]);
        }
      }
    }

    /** `invalidate_cache`. */
    method InvalidateCache(col: int, row: int)
      requires Shaped() && CoordsOk(col, row)
      modifies cacheValid
      ensures forall c, r :: 0 <= c < Cols && 0 <= r < Rows ==>
        cacheValid[c, r] == if c == col && r == row then false else old(cacheValid[c, r])
    {
      cacheValid[col, row] := false;
    }

    /** `populate`: a fresh random program at (col, row), whose thumbnail
      is then out of date. Bad coordinates kill the process (`died`). */
    method Populate(col: int, row: int, tools: seq<Instruc>, rand: nat -> u32) returns (died: bool)
      requires Drawable(tools) && Valid()
      modifies programs, cacheValid
      ensures Valid() && (died <==> !CoordsOk(col, row))
      ensures died ==> unchanged(programs, cacheValid)
      ensures !died ==> (OthersKept(col, row) && !cacheValid[col, row] &&
                         Program(col, row) == RandomizeFrom(tools, old(Program(col, row)), 0, rand, 0))
      ensures forall c, r :: 0 <= c < Cols && 0 <= r < Rows && (c != col || r != row) ==>
        cacheValid[c, r] == old(cacheValid[c, r])
    {
      if !CoordsOk(col, row) {
        return true;
      }
      Randomize(col, row, tools, rand);
      InvalidateCache(col, row);
      return false;
    }

    /** `sample`: mutate program (col, row), whose thumbnail is then out of
      date. */
    method Sample(col: int, row: int, tools: seq<Instruc>, rand: nat -> u32, nudge: (u32, u32) -> u32) returns (died: bool)
      requires Drawable(tools) && Valid()
      modifies programs, cacheValid
      ensures Valid() && (died <==> !CoordsOk(col, row))
      ensures died ==> unchanged(programs, cacheValid)
      ensures !died ==> (OthersKept(col, row) && !cacheValid[col, row] &&
                         Program(col, row) == MutateFrom(tools, old(Program(col, row)), 0, rand, 0, nudge))
      ensures forall c, r :: 0 <= c < Cols && 0 <= r < Rows && (c != col || r != row) ==>
        cacheValid[c, r] == old(cacheValid[c, r])
    {
      if !CoordsOk(col, row) {
        return true;
      }
      Mutate(col, row, tools, rand, nudge);
      InvalidateCache(col, row);
      return false;
    }

    /** `copy`: program (col1, row1) becomes a copy of program (col2,
      row2), and only its thumbnail goes out of date. */
    method Copy(col1: int, row1: int, col2: int, row2: int) returns (died: bool)
      requires Valid()
      modifies programs, cacheValid
      ensures Valid() && (died <==> !CoordsOk(col1, row1) || !CoordsOk(col2, row2))
      ensures died ==> unchanged(programs, cacheValid)
      ensures !died ==> (OthersKept(col1, row1) && !cacheValid[col1, row1] &&
                         Program(col1, row1) == old(Program(col2, row2)))
      ensures forall c, r :: 0 <= c < Cols && 0 <= r < Rows && (c != col1 || r != row1) ==>
        cacheValid[c, r] == old(cacheValid[c, r])
    {
      if !CoordsOk(col1, row1) || !CoordsOk(col2, row2) {
        return true;
      }
      ghost var source := Program(col2, row2);
      var i := 0;
      while i < ProgramLength
        invariant 0 <= i <= ProgramLength && GenesOk() && OthersKept(col1, row1) && unchanged(cacheValid)
        invariant forall j :: 0 <= j < i ==> programs[col1, row1, j] == source[j]
        invariant forall j :: i <= j < ProgramLength ==> programs[col1, row1, j] == old(programs[col1, row1, j])
      {
        programs[col1, row1, i] := programs[col2, row2, i];
        i := i + 1;
      }
      assert Program(col1, row1) == source;
      InvalidateCache(col1, row1);
      return false;
    }

    /** `update_cache`: keep the thumbnail now on the screen and mark it
      valid. */
    method UpdateCache(grid: array<int>, col: int, row: int)
      requires Valid() && CoordsOk(col, row) && grid.Length == GridSize && grid != thumbnailCache
      modifies thumbnailCache, cacheValid, this`drawnFrom
      ensures Valid() && drawnFrom == old(drawnFrom)[(col, row) := Program(col, row)]
      ensures forall c, r :: 0 <= c < Cols && 0 <= r < Rows ==>
        cacheValid[c, r] == if c == col && r == row then true else old(cacheValid[c, r])
      ensures forall x, y :: 0 <= x < GridWidth && 0 <= y < GridHeight ==>
        thumbnailCache[At(x, y)] == if InThumb(x, y, col, row) then grid[At(x, y)] else old(thumbnailCache[At(x, y)])
    {
      CopyGridSquare(thumbnailCache, grid, col, row);
      cacheValid[col, row] := true;
      drawnFrom := drawnFrom[(col, row) := Program(col, row)];
    }

    /** The cache bookkeeping of `generate`: a valid thumbnail is copied
      from the cache to the screen; otherwise the thumbnail is drawn (not
      modelled: the screen is taken as drawn) and kept in the cache, which
      is then valid. Either way the thumbnail ends up valid. */
    method Generate(grid: array<int>, col: int, row: int) returns (died: bool)
      requires Valid() && grid.Length == GridSize && grid != thumbnailCache
      modifies grid, thumbnailCache, cacheValid, this`drawnFrom
      ensures Valid() && (died <==> !CoordsOk(col, row))
      ensures died ==> unchanged(grid, thumbnailCache, cacheValid) && drawnFrom == old(drawnFrom)
      ensures !died ==> cacheValid[col, row] && drawnFrom[(col, row)] == Program(col, row)
      ensures forall c, r :: 0 <= c < Cols && 0 <= r < Rows && (c != col || r != row) ==>
        cacheValid[c, r] == old(cacheValid[c, r])
      ensures forall x, y :: 0 <= x < GridWidth && 0 <= y < GridHeight ==>
        grid[At(x, y)] == (if !died && InThumb(x, y, col, row) then thumbnailCache[At(x, y)] else old(grid[At(x, y)])) &&
        thumbnailCache[At(x, y)] == (if !died && InThumb(x, y, col, row) then grid[At(x, y)] else old(thumbnailCache[At(x, y)]))
    {
      if !CoordsOk(col, row) {
        return true;
      }
      if cacheValid[col, row] {
        CopyGridSquare(grid, thumbnailCache, col, row);
        return false;
      }
      InvalidateCache(col, row);
      UpdateCache(grid, col, row);
      return false;
    }
  }
}
