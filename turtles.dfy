/** Evolving turtle-graphics genomes: one genome per screen tile, each a
    fixed-length list of instructions, and the set of live turtles that an
    evaluated genome commands. `hatch[` duplicates the active turtles and
    makes the copies active, remembering the old active range on a small
    stack; `]` returns to it. The turtles' positions, headings and colours
    are floating point and are only copied here. */
module Turtles {
  import opened Cells
  import opened Screen
  import TuslText

  const GenomeLength: int := 100
  const MutationRate: int := 3
  const TileWidth: int := 256
  const TileHeight: int := 256
  const Cols: int := GridWidth / TileWidth
  const Rows: int := GridHeight / TileHeight
  const Tiles: int := Rows * Cols
  const MaxTurtles: int := 131072
  const MaxNesting: int := 20

  /** A turtle: offset from the tile's centre, heading, colour. */
  datatype Turtle = Turtle(x: real, y: real, heading: real, r: real, g: real, b: real)

  /** The turtle `reset` leaves at index 0: at the centre, heading along
      the x-axis, white. */
  const Origin: Turtle := Turtle(0.0, 0.0, 0.0, 1.0, 1.0, 1.0)

  /** An entry of `op_types`: how many arguments the op prints and its name. */
  datatype OpType = OpType(numArguments: int, name: string)

  const OpTypes: seq<OpType> := [
    OpType(0, "plot"), OpType(1, "fd"), OpType(1, "lt"), OpType(0, "hatch["), OpType(0, "]"),
    OpType(0, "diffuse"), OpType(1, "+r"), OpType(1, "+g"), OpType(1, "+b")]

  const HatchOp: int := 3
  const EndOp: int := 4

  /** A gene: an index into `OpTypes` and an argument. */
  datatype Instruc = Instruc(kind: int, argument: int)

  predicate InstrucOk(ins: Instruc)
  {
    0 <= ins.kind < |OpTypes|
  }

  /** `choose`: a draw of `rand ()` reduced modulo n. */
  function Choose(r: u32, n: int): (c: int)
    requires 0 < n
    ensures 0 <= c < n
  {
    r % n
  }

  /** `random_instruc` from its two draws. */
  function RandomInstruc(r1: u32, r2: u32): (ins: Instruc)
    ensures InstrucOk(ins) && -100 <= ins.argument <= 99
  {
    Instruc(Choose(r1, |OpTypes|), Choose(r2, 200) - 100)
  }

  /** Every instruction with an op and an argument in range is drawn by
      some pair of draws. */
  lemma {:induction false} RandomInstrucCovers(ins: Instruc)
    requires InstrucOk(ins) && -100 <= ins.argument <= 99
    ensures RandomInstruc(ins.kind, ins.argument + 100) == ins
  {
    assert ins.kind % |OpTypes| == ins.kind;
    assert (ins.argument + 100) % 200 == ins.argument + 100;
  }

  /** `check_coord`: the genome numbers that do not make the program die. */
  predicate ValidCoord(g: int)
  {
    0 <= g < Tiles
  }

  /** The text `write_instruc` writes for a gene: the argument in `%d`
      form only for ops taking one, then the op's name. */
  function WriteInstruc(p: Instruc): (s: string)
    requires InstrucOk(p)
  {
    var op := OpTypes[p.kind];
    (if op.numArguments == 1 then " " + TuslText.Decimal(p.argument) else "") + " " + op.name
  }

  /** The written gene ends with its op name after a space; it starts with
      the argument (a digit or a minus sign after the first space) exactly
      when the op takes one, and then the text between the two spaces reads
      back as the argument. */
  lemma {:induction false} WriteInstrucShape(p: Instruc)
    requires InstrucOk(p)
    ensures var s, name := WriteInstruc(p), OpTypes[p.kind].name;
      |s| >= |name| + 1 && s[|s| - |name|..] == name && s[|s| - |name| - 1] == ' ' && s[0] == ' '
    ensures var s := WriteInstruc(p);
      OpTypes[p.kind].numArguments == 1 <==> '0' <= s[1] <= '9' || s[1] == '-'
    ensures var s, name := WriteInstruc(p), OpTypes[p.kind].name;
      OpTypes[p.kind].numArguments == 1 ==> TuslText.IntegerValue(s[1..|s| - |name| - 1]) == TuslText.Some(p.argument)
  {
    var op := OpTypes[p.kind];
    var s := WriteInstruc(p);
    if op.numArguments == 1 {
      var d := TuslText.Decimal(p.argument);
      assert s == " " + d + (" " + op.name);
      assert s[1..|s| - |op.name| - 1] == d;
      assert s[1] == d[0];
      if p.argument >= 0 {
        assert d == TuslText.Digits(p.argument);
        assert TuslText.DigitValue(d[0]) < 10;
      }
      TuslText.DecimalDenotes(p.argument);
    } else {
      assert s == " " + op.name;
      assert s[1] == op.name[0];
      assert s[|s| - |op.name|..] == op.name;
    }
  }

  /** The active-range bookkeeping: turtles `first..num-1` are active and
      `saved` holds the earlier values of `first`, the last one on top. */
  datatype Nesting = Nesting(first: int, num: int, saved: seq<int>)

  /** What the bookkeeping keeps: an active range inside the live turtles,
      at least one live turtle, a stack within its capacity, and saved
      ranges that start no later than the ones saved after them. */
  predicate NestingOk(s: Nesting)
  {
    0 <= s.first <= s.num <= MaxTurtles && 1 <= s.num && |s.saved| <= MaxNesting &&
    (forall k :: 0 <= k < |s.saved| ==> 0 <= s.saved[k] <= s.first) &&
    (forall j, k :: 0 <= j < k < |s.saved| ==> s.saved[j] <= s.saved[k])
  }

  /** How many active turtles `hatch_start` copies: all of them, or as
      many as still fit. */
  function HatchCount(s: Nesting): (d: int)
    requires NestingOk(s)
    ensures 0 <= d <= s.num - s.first && s.num + d <= MaxTurtles
    ensures d == s.num - s.first || s.num + d == MaxTurtles
  {
    var d := s.num - s.first;
    if MaxTurtles < s.num + d then MaxTurtles - s.num else d
  }

  /** `hatch_start` on the bookkeeping: save `first` when the stack has
      room, and make the copies the active range. */
  function HatchNext(s: Nesting): (t: Nesting)
    requires NestingOk(s)
    ensures NestingOk(t)
  {
    var d := HatchCount(s);
    Nesting(s.num, s.num + d, if |s.saved| < MaxNesting then s.saved + [s.first] else s.saved)
  }

  /** `end` on the bookkeeping: restore the last saved `first`, if any. */
  function EndNext(s: Nesting): (t: Nesting)
    requires NestingOk(s)
    ensures NestingOk(t)
  {
    if |s.saved| == 0 then s
    else Nesting(s.saved[|s.saved| - 1], s.num, s.saved[..|s.saved| - 1])
  }

  /** `]` undoes `hatch[`: the old active range starts where it did, and
      the stack is as before; the hatched turtles stay alive. */
  lemma {:induction false} EndUndoesHatch(s: Nesting)
    requires NestingOk(s) && |s.saved| < MaxNesting
    ensures EndNext(HatchNext(s)) == Nesting(s.first, HatchNext(s).num, s.saved)
  {
    var t := HatchNext(s);
    assert t.saved == s.saved + [s.first];
    assert t.saved[..|t.saved| - 1] == s.saved;
  }

  /** `hatch[` doubles the active turtles while there is room, and never
      loses a live turtle. */
  lemma {:induction false} HatchDoubles(s: Nesting)
    requires NestingOk(s)
    ensures var t := HatchNext(s);
      t.first == s.num && s.num <= t.num &&
      (s.num + (s.num - s.first) <= MaxTurtles ==> t.num - t.first == s.num - s.first)
  {
  }

  /** The push as written: the guard `sp < max_nesting` with `sp` one less
      than the stack's depth. */
  function HatchSavedAsWritten(s: Nesting): seq<int>
  {
    if |s.saved| - 1 < MaxNesting then s.saved + [s.first] else s.saved
  }

  /** With the stack full, the guard as written still pushes, to index
      `max_nesting`, one past the end of `stack`. */
  lemma {:induction false} PushGuardOverflows(s: Nesting)
    requires |s.saved| == MaxNesting
    ensures |HatchSavedAsWritten(s)| == MaxNesting + 1
  {
    assert |s.saved| - 1 < MaxNesting;
  }

  /** The turtles, the nesting stack and the genomes of all tiles. */
  class World {
    const turtles: array<Turtle>
    var numTurtles: int
    var firstActive: int
    const stack: array<int>
    var sp: int
    /** Gene i of genome g is at `g * GenomeLength + i`. */
    const genome: array<Instruc>

    ghost function State(): Nesting
      reads this, stack
      requires -1 <= sp < stack.Length
    {
      Nesting(firstActive, numTurtles, stack[..sp + 1])
    }

    ghost predicate Valid()
      reads this, stack
    {
      turtles.Length == MaxTurtles && stack.Length == MaxNesting && genome.Length == Tiles * GenomeLength &&
      -1 <= sp < MaxNesting && NestingOk(State())
    }

    /** Every gene names an op of `op_types`. */
    ghost predicate GenomeOk()
      reads genome
    {
      genome.Length == Tiles * GenomeLength && forall i :: 0 <= i < genome.Length ==> InstrucOk(genome[i])
    }

    /** The program's initial state: zeroed arrays, then `reset`. */
    constructor ()
      ensures Valid() && GenomeOk() && State() == Nesting(0, 1, []) && turtles[0] == Origin
      ensures fresh(turtles) && fresh(stack) && fresh(genome)
    {
      turtles := new Turtle[MaxTurtles](_ => Turtle(0.0, 0.0, 0.0, 0.0, 0.0, 0.0));
      stack := new int[MaxNesting](_ => 0);
      genome := new Instruc[Tiles * GenomeLength](_ => Instruc(0, 0));
      new;
      turtles[0] := Origin;
      firstActive, numTurtles, sp := 0, 1, -1;
    }

    /** `reset`: one active turtle at the origin and an empty stack. */
    method Reset()
      requires Valid()
      modifies this, turtles
      ensures Valid() && State() == Nesting(0, 1, [])
      ensures turtles[..] == old(turtles[..])[0 := Origin]
    {
      firstActive := 0;
      numTurtles := 1;
      turtles[0] := Origin;
      sp := -1;
    }

    /** `hatch_start` with the push guarded by the stack's capacity: copy
      the active turtles (as many as fit) to the end, save the old start of
      the active range, and make the copies active. */
    method HatchStart()
      requires Valid()
      modifies this, stack, turtles
      ensures Valid() && State() == HatchNext(old(State()))
      ensures forall i :: 0 <= i < MaxTurtles ==>
        turtles[i] == if old(numTurtles) <= i < numTurtles then old(turtles[i - numTurtles + firstActive])
                      else old(turtles[i])
    {
      ghost var s := State();
      var first, num := firstActive, numTurtles;
      var d := num - first;
      if MaxTurtles < num + d {
        d := MaxTurtles - num;
      }
      SaveActive();
      ghost var saved := stack[..sp + 1];
      CopyRange(turtles, first, num, d);
      firstActive := num;
      numTurtles := num + d;
      assert State() == Nesting(num, num + d, saved);
    }

    /** The push of `hatch_start`, guarded by the stack's capacity. */
    method SaveActive()
      requires Valid()
      modifies this, stack
      ensures Valid() && firstActive == old(firstActive) && numTurtles == old(numTurtles)
      ensures var t := old(State());
        State().saved == if |t.saved| < MaxNesting then t.saved + [t.first] else t.saved
    {
      if sp < MaxNesting - 1 {
        sp := sp + 1;
        stack[sp] := firstActive;
        assert stack[..sp + 1] == old(stack[..sp + 1]) + [firstActive];
      }
    }

    /** `end`: pop the active range saved by the matching `hatch[`. */
    method End()
      requires Valid()
      modifies this
      ensures Valid() && State() == EndNext(old(State()))
    {
      if 0 <= sp {
        firstActive := stack[sp];
        sp := sp - 1;
        assert stack[..sp + 1] == old(stack[..sp + 1])[..sp + 1];
      }
    }

    /** `randomize`: a fresh random genome for tile g; a bad g kills the
      program, which is reported as `died`. Gene i draws `rand(2i)` and
      `rand(2i + 1)`. */
    method Randomize(g: int, rand: nat -> u32) returns (died: bool)
      requires GenomeOk()
      modifies genome
      ensures GenomeOk()
      ensures died <==> !ValidCoord(g)
      ensures !died ==> genome[..] == WithGenome(old(genome[..]), g, RandomGenome(rand))
      ensures died ==> genome[..] == old(genome[..])
    {
      if !ValidCoord(g) {
        return true;
      }
      ghost var before := genome[..];
      var lo := g * GenomeLength;
      var i := 0;
      while i != GenomeLength
        invariant 0 <= i <= GenomeLength
        invariant forall j :: 0 <= j < genome.Length ==>
          genome[j] == if lo <= j < lo + i then RandomGenome(rand)[j - lo] else before[j]
      {
        genome[lo + i] := RandomInstruc(rand(2 * i), rand(2 * i + 1));
        i := i + 1;
      }
      SpliceBlock(genome[..], before, RandomGenome(rand), g, lo);
      return false;
    }

    /** `mutate`: each gene of tile g is redrawn with probability
      `mutation_rate` percent. Draws are taken in order from `rand`: one
      for the test and, for a redrawn gene, two more for the new gene. */
    method Mutate(g: int, rand: nat -> u32) returns (died: bool)
      requires GenomeOk()
      modifies genome
      ensures GenomeOk()
      ensures died <==> !ValidCoord(g)
      ensures !died ==>
        genome[..] == WithGenome(old(genome[..]), g, MutateFrom(Genome(old(genome[..]), g), 0, rand, 0))
      ensures died ==> genome[..] == old(genome[..])
    {
      if !ValidCoord(g) {
        return true;
      }
      ghost var before := genome[..];
      var lo := g * GenomeLength;
      var i, k := 0, 0;
      while i != GenomeLength
        invariant 0 <= i <= GenomeLength && GenomeOk()
        invariant genome[..lo] == before[..lo] && genome[lo + GenomeLength..] == before[lo + GenomeLength..]
        invariant MutateFrom(genome[lo..lo + GenomeLength], i, rand, k) ==
                  MutateFrom(before[lo..lo + GenomeLength], 0, rand, 0)
      {
        ghost var block := genome[lo..lo + GenomeLength];
        if Choose(rand(k), 100) < MutationRate {
          genome[lo + i] := RandomInstruc(rand(k + 1), rand(k + 2));
          assert genome[lo..lo + GenomeLength] == block[i := RandomInstruc(rand(k + 1), rand(k + 2))];
          k := k + 3;
        } else {
          k := k + 1;
        }
        i := i + 1;
      }
      assert genome[..] == genome[..lo] + genome[lo..lo + GenomeLength] + genome[lo + GenomeLength..];
      assert Genome(before, g) == before[lo..lo + GenomeLength];
      return false;
    }

    /** `copy`: genome g becomes a copy of genome h. */
    method Copy(g: int, h: int) returns (died: bool)
      requires GenomeOk()
      modifies genome
      ensures GenomeOk()
      ensures died <==> !ValidCoord(g) || !ValidCoord(h)
      ensures !died ==> genome[..] == WithGenome(old(genome[..]), g, Genome(old(genome[..]), h))
      ensures died ==> genome[..] == old(genome[..])
    {
      if !ValidCoord(g) || !ValidCoord(h) {
        return true;
      }
      ghost var before := genome[..];
      var lo, src := g * GenomeLength, h * GenomeLength;
      GenomesApart(g, h);
      MoveRange(genome, src, lo, GenomeLength);
      CopiedGenome(genome[..], before, g, h, lo, src);
      return false;
    }

    /** The integer part of `evaluate`: `reset`, then each gene in turn,
      of which `hatch[` and `]` change the active range (the drawing and
      moving ops are floating point and not modelled). The result is the
      fold of the two bookkeeping steps over the genome. */
    method Evaluate(g: int) returns (died: bool)
      requires Valid()
      modifies this, stack, turtles
      ensures Valid() && (died <==> !ValidCoord(g))
      ensures !died ==> State() == RunNesting(Genome(genome[..], g), Nesting(0, 1, []))
    {
      if !ValidCoord(g) {
        return true;
      }
      Reset();
      ghost var code := Genome(genome[..], g);
      var i := 0;
      while i != GenomeLength
        invariant 0 <= i <= GenomeLength && Valid()
        invariant RunNesting(code, Nesting(0, 1, [])) == RunNesting(code[i..], State())
      {
        var t := genome[g * GenomeLength + i].kind;
        assert code[i..][0].kind == t && code[i..][1..] == code[i + 1..];
        if t == HatchOp {
          HatchStart();
        } else if t == EndOp {
          End();
        }
        i := i + 1;
      }
      return false;
    }
  }

  /** A whole genome of fresh random genes, gene i from draws 2i and
      2i + 1. */
  function RandomGenome(rand: nat -> u32): (block: seq<Instruc>)
    ensures |block| == GenomeLength && forall i :: 0 <= i < GenomeLength ==> InstrucOk(block[i])
  {
    var block := seq(GenomeLength, i requires 0 <= i => RandomInstruc(rand(2 * i), rand(2 * i + 1)));
    assert forall i :: 0 <= i < GenomeLength ==> block[i] == RandomInstruc(rand(2 * i), rand(2 * i + 1));
    block
  }

  /** Genome g of the genome array. */
  function Genome(s: seq<Instruc>, g: int): (block: seq<Instruc>)
    requires |s| == Tiles * GenomeLength && ValidCoord(g)
    ensures |block| == GenomeLength
  {
    s[g * GenomeLength..(g + 1) * GenomeLength]
  }

  /** The genome array with genome g replaced by `block`. */
  function WithGenome(s: seq<Instruc>, g: int, block: seq<Instruc>): (r: seq<Instruc>)
    requires |s| == Tiles * GenomeLength && ValidCoord(g) && |block| == GenomeLength
    ensures |r| == |s|
  {
    s[..g * GenomeLength] + block + s[(g + 1) * GenomeLength..]
  }

  /** Replacing genome g gives it the new genes and leaves every other
      genome as it was. */
  lemma {:induction false} WithGenomeMeaning(s: seq<Instruc>, g: int, block: seq<Instruc>, h: int)
    requires |s| == Tiles * GenomeLength && ValidCoord(g) && |block| == GenomeLength && ValidCoord(h)
    ensures Genome(WithGenome(s, g, block), h) == if h == g then block else Genome(s, h)
  {
    var r := WithGenome(s, g, block);
    var lo := g * GenomeLength;
    assert h * GenomeLength + GenomeLength <= lo || lo + GenomeLength <= h * GenomeLength || h == g;
    forall i | 0 <= i < GenomeLength
      ensures Genome(r, h)[i] == (if h == g then block else Genome(s, h))[i]
    {
      var j := h * GenomeLength + i;
      assert Genome(r, h)[i] == r[j];
      if j < lo {
        assert r[j] == s[j];
      } else if j < lo + GenomeLength {
        assert r[j] == block[j - lo];
      } else {
        assert r[j] == s[j];
      }
    }
  }

  /** An array written over genome g equals the old contents with the new
      genome spliced in, and keeps every gene valid. */
  lemma {:induction false} SpliceBlock(cur: seq<Instruc>, before: seq<Instruc>, block: seq<Instruc>, g: int, lo: int)
    requires |cur| == |before| == Tiles * GenomeLength && ValidCoord(g) && |block| == GenomeLength
    requires lo == g * GenomeLength
    requires forall j :: 0 <= j < |cur| ==> cur[j] == if lo <= j < lo + GenomeLength then block[j - lo] else before[j]
    ensures cur == WithGenome(before, g, block)
    ensures (forall j :: 0 <= j < |before| ==> InstrucOk(before[j])) && (forall j :: 0 <= j < |block| ==> InstrucOk(block[j])) ==>
      forall j :: 0 <= j < |cur| ==> InstrucOk(cur[j])
  {
    var r := WithGenome(before, g, block);
    forall j | 0 <= j < |cur|
      ensures cur[j] == r[j]
    {
      if j < lo {
      } else if j < lo + |block| {
      } else {
      }
    }
  }

  /** Two genomes lie inside the array and are the same or do not
      overlap. */
  lemma GenomesApart(g: int, h: int)
    requires ValidCoord(g) && ValidCoord(h)
    ensures 0 <= g * GenomeLength && g * GenomeLength + GenomeLength <= Tiles * GenomeLength
    ensures var lo, src := g * GenomeLength, h * GenomeLength;
      lo == src || lo + GenomeLength <= src || src + GenomeLength <= lo
  {
    if g < h {
      assert g * GenomeLength + GenomeLength == (g + 1) * GenomeLength <= h * GenomeLength;
    } else if h < g {
      assert h * GenomeLength + GenomeLength == (h + 1) * GenomeLength <= g * GenomeLength;
    }
  }

  /** The genome array after `memcpy` of genome h over genome g. */
  lemma {:induction false} CopiedGenome(after: seq<Instruc>, before: seq<Instruc>, g: int, h: int, lo: int, src: int)
    requires |after| == |before| == Tiles * GenomeLength && ValidCoord(g) && ValidCoord(h)
    requires lo == g * GenomeLength && src == h * GenomeLength
    requires 0 <= lo && 0 <= src && lo + GenomeLength <= |before| && src + GenomeLength <= |before|
    requires Moved(after, before, src, lo, GenomeLength)
    ensures after == WithGenome(before, g, Genome(before, h))
    ensures (forall j :: 0 <= j < |before| ==> InstrucOk(before[j])) ==> forall j :: 0 <= j < |after| ==> InstrucOk(after[j])
  {
    var block := Genome(before, h);
    assert block == before[src..src + GenomeLength];
    MovedBlock(after, before, src, lo, GenomeLength);
    SpliceBlock(after, before, block, g, lo);
  }

  /** A move of n elements to `dst` puts the source slice there. */
  lemma MovedBlock<T>(after: seq<T>, before: seq<T>, src: int, dst: int, n: int)
    requires 0 <= src && 0 <= dst && 0 <= n && src + n <= |before| && dst + n <= |before|
    requires Moved(after, before, src, dst, n)
    ensures forall j :: 0 <= j < |after| ==>
      after[j] == if dst <= j < dst + n then before[src..src + n][j - dst] else before[j]
  {
  }

  /** `after` is `before` with n elements moved from `src` to `dst`. */
  ghost predicate Moved<T>(after: seq<T>, before: seq<T>, src: int, dst: int, n: int)
    requires 0 <= src && 0 <= dst && 0 <= n && src + n <= |before| && dst + n <= |before|
  {
    |after| == |before| &&
    forall i {:trigger after[i]} :: 0 <= i < |after| ==> after[i] == if dst <= i < dst + n then before[i - dst + src] else before[i]
  }

  /** `CopyRange` stated on the array's contents as a sequence. */
  method MoveRange<T>(a: array<T>, src: int, dst: int, n: int)
    requires 0 <= src && 0 <= dst && 0 <= n && src + n <= a.Length && dst + n <= a.Length
    requires src == dst || src + n <= dst || dst + n <= src
    modifies a
    ensures Moved(a[..], old(a[..]), src, dst, n)
  {
    CopyRange(a, src, dst, n);
  }

  /** `memcpy` of n elements from `src` to `dst` within one array, for
      ranges that are the same or do not overlap. */
  method CopyRange<T>(a: array<T>, src: int, dst: int, n: int)
    requires 0 <= src && 0 <= dst && 0 <= n && src + n <= a.Length && dst + n <= a.Length
    requires src == dst || src + n <= dst || dst + n <= src
    modifies a
    ensures forall i :: 0 <= i < a.Length ==>
      a[i] == if dst <= i < dst + n then old(a[i - dst + src]) else old(a[i])
  {
    var k := 0;
    while k != n
      invariant 0 <= k <= n
      invariant forall i :: 0 <= i < a.Length ==>
        a[i] == if dst <= i < dst + k then old(a[i - dst + src]) else old(a[i])
    {
      a[dst + k] := a[src + k];
      k := k + 1;
    }
  }

  /** `mutate`'s loop from gene i on, with the next draw at index k. */
  function MutateFrom(block: seq<Instruc>, i: nat, rand: nat -> u32, k: nat): (r: seq<Instruc>)
    requires i <= |block|
    ensures |r| == |block|
    decreases |block| - i
  {
    if i == |block| then block
    else if Choose(rand(k), 100) < MutationRate
    then MutateFrom(block[i := RandomInstruc(rand(k + 1), rand(k + 2))], i + 1, rand, k + 3)
    else MutateFrom(block, i + 1, rand, k + 1)
  }

  /** Mutation keeps the genome's length, keeps every gene a valid
      instruction, and leaves the genes before i alone. */
  lemma {:induction false} MutateFromKeeps(block: seq<Instruc>, i: nat, rand: nat -> u32, k: nat)
    requires i <= |block| && forall j :: 0 <= j < |block| ==> InstrucOk(block[j])
    ensures var m := MutateFrom(block, i, rand, k);
      |m| == |block| && (forall j :: 0 <= j < |m| ==> InstrucOk(m[j])) && m[..i] == block[..i]
    decreases |block| - i
  {
    if i < |block| {
      if Choose(rand(k), 100) < MutationRate {
        var b := block[i := RandomInstruc(rand(k + 1), rand(k + 2))];
        MutateFromKeeps(b, i + 1, rand, k + 3);
        var m := MutateFrom(b, i + 1, rand, k + 3);
        assert m[..i] == m[..i + 1][..i] == b[..i + 1][..i] == block[..i];
      } else {
        MutateFromKeeps(block, i + 1, rand, k + 1);
        var m := MutateFrom(block, i + 1, rand, k + 1);
        assert m[..i] == m[..i + 1][..i] == block[..i + 1][..i] == block[..i];
      }
    }
  }

  /** With every test draw at least `mutation_rate` the genome is unchanged. */
  lemma {:induction false} MutateFromNoHits(block: seq<Instruc>, i: nat, rand: nat -> u32, k: nat)
    requires i <= |block| && forall n :: k <= n ==> Choose(rand(n), 100) >= MutationRate
    ensures MutateFrom(block, i, rand, k) == block
    decreases |block| - i
  {
    if i < |block| {
      MutateFromNoHits(block, i + 1, rand, k + 1);
    }
  }

  /** The active-range bookkeeping after running the genes of `code`. */
  function RunNesting(code: seq<Instruc>, s: Nesting): (t: Nesting)
    requires NestingOk(s)
    ensures NestingOk(t)
  {
    if code == [] then s
    else
      var s' := if code[0].kind == HatchOp then HatchNext(s) else if code[0].kind == EndOp then EndNext(s) else s;
      RunNesting(code[1..], s')
  }

  /** A balanced `hatch[ ... ]` pair with nothing in between restores the
      start of the active range. */
  lemma {:induction false} HatchEndPair(s: Nesting, rest: seq<Instruc>)
    requires NestingOk(s) && |s.saved| < MaxNesting
    ensures RunNesting([Instruc(HatchOp, 0), Instruc(EndOp, 0)] + rest, s) ==
            RunNesting(rest, Nesting(s.first, HatchNext(s).num, s.saved))
  {
    var code := [Instruc(HatchOp, 0), Instruc(EndOp, 0)] + rest;
    assert code[1..][1..] == rest;
    EndUndoesHatch(s);
  }
}
