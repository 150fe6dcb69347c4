/** Compiling a genetic program into a node graph. A program is a list of
    stack instructions ending in `end`; it is run symbolically on a
    circular stack of `StackLimit` slots, each slot holding one node per
    colour component, so that the nodes left on top of the stack compute
    the image. Because the stack wraps around, old slots are reused and
    the graph can share nodes. */
module EvoCompile {
  import opened Cells
  import opened EvoNodes

  const StackLimit: int := 6

  /** An instruction: how often random choice picks it, its kind, its
      pixel routine (an address, 0 for none), how many slots it pops and
      pushes, its name, and the bits of its constant. */
  datatype Instruc = Instruc(frequency: int, kind: OpKind, opcode: u32, pops: int, pushes: int,
                             name: string, constant: u32)

  /** `make_constant`. */
  function MakeConstant(value: u32): (p: Instruc)
    ensures p.kind == Constant && p.constant == value && p.pops == 0 && p.pushes == 1
  {
    Instruc(1, Constant, 0, 0, 1, "constant", value)
  }

  /** An operation the symbolic stack knows: any kind but `end`, `part1`
      and `part2` (which only nodes have), popping and pushing no more than
      the stack holds. */
  predicate Pretendable(p: Instruc)
  {
    p.kind != End && p.kind != Part1 && p.kind != Part2 &&
    0 <= p.pops <= StackLimit && 0 <= p.pushes <= StackLimit
  }

  /** `toolbox`: one of each instruction, in the source's order; the
      opcode is a distinct address for each pixel routine. `sprinkle`
      keeps the source's pop count of 0. */
  const Toolbox: seq<Instruc> := [
    Instruc(1, Constant, 0, 0, 1, "constant", 0),
    Instruc(1, Opc0, 1, 0, 1, "x", 0),
    Instruc(1, Opc0, 2, 0, 1, "y", 0),
    Instruc(1, Sprinkle, 0, 0, 1, "sprinkle", 0),
    Instruc(1, Opc1, 3, 1, 1, "abs", 0),
    Instruc(1, Opc1, 4, 1, 1, "atan", 0),
    Instruc(1, Opc1, 5, 1, 1, "cos", 0),
    Instruc(1, Opc1, 6, 1, 1, "exp", 0),
    Instruc(1, Opc1, 7, 1, 1, "floor", 0),
    Instruc(1, Opc1, 8, 1, 1, "log", 0),
    Instruc(1, Opc1, 9, 1, 1, "neg", 0),
    Instruc(1, Opc1, 10, 1, 1, "sign", 0),
    Instruc(1, Opc1, 11, 1, 1, "sin", 0),
    Instruc(1, Opc1, 12, 1, 1, "sqrt", 0),
    Instruc(1, Opc1, 13, 1, 1, "tan", 0),
    Instruc(1, Hwb, 0, 1, 1, "hwb", 0),
    Instruc(1, Opc2, 14, 2, 1, "+", 0),
    Instruc(1, Opc2, 15, 2, 1, "-", 0),
    Instruc(1, Opc2, 16, 2, 1, "*", 0),
    Instruc(1, Opc2, 17, 2, 1, "/", 0),
    Instruc(1, Opc2, 18, 2, 1, "average", 0),
    Instruc(1, Opc2, 19, 2, 1, "hypot", 0),
    Instruc(1, Opc2, 20, 2, 1, "max", 0),
    Instruc(1, Opc2, 21, 2, 1, "min", 0),
    Instruc(1, Mix, 0, 2, 1, "mix", 0),
    Instruc(1, Opc2, 22, 2, 1, "mod", 0),
    Instruc(1, Opc2, 23, 2, 1, "pow", 0),
    Instruc(1, Opc2, 24, 2, 1, "and", 0),
    Instruc(1, Opc2, 25, 2, 1, "or", 0),
    Instruc(1, Opc2, 26, 2, 1, "xor", 0),
    Instruc(1, Color, 0, 3, 1, "color", 0),
    Instruc(1, RotColor, 0, 1, 1, "rotcolor", 0)
  ]

  /** Every tool can be run symbolically and has a positive frequency. */
  lemma ToolboxOk()
    ensures |Toolbox| == 32
    ensures forall i :: 0 <= i < |Toolbox| ==> Pretendable(Toolbox[i]) && Toolbox[i].frequency == 1
  {
  }

  /** The total frequency of the first i tools. */
  function Prefix(tools: seq<Instruc>, i: int): int
    requires 0 <= i <= |tools|
  {
    if i == 0 then 0 else Prefix(tools, i - 1) + tools[i - 1].frequency
  }

  /** With every frequency 1, the first i tools weigh i. */
  lemma {:induction false} PrefixOfOnes(tools: seq<Instruc>, i: int)
    requires 0 <= i <= |tools| && forall j :: 0 <= j < |tools| ==> tools[j].frequency == 1
    ensures Prefix(tools, i) == i
  {
    if i > 0 {
      PrefixOfOnes(tools, i - 1);
    }
  }

  /** Prefix sums of positive frequencies grow strictly. */
  lemma {:induction false} PrefixGrows(tools: seq<Instruc>, i: int, j: int)
    requires 0 <= i < j <= |tools| && forall m :: 0 <= m < |tools| ==> tools[m].frequency >= 1
    ensures Prefix(tools, i) < Prefix(tools, j)
    decreases j
  {
    if i < j - 1 {
      PrefixGrows(tools, i, j - 1);
    }
  }

  /** `frequency_sum`. */
  method FrequencySum(tools: seq<Instruc>) returns (sum: int)
    ensures sum == Prefix(tools, |tools|)
  {
    sum := 0;
    var i := 0;
    while i < |tools|
      invariant 0 <= i <= |tools| && sum == Prefix(tools, i)
    {
      sum := sum + tools[i].frequency;
      i := i + 1;
    }
  }

  /** The scan of `weighted_random_instruc` as written: the first tool i
      from `from` on whose running total reaches the draw k (`k <= sum`);
      |tools| when none does. */
  function PickAsWritten(tools: seq<Instruc>, k: int, from: int): (i: int)
    requires 0 <= from <= |tools|
    ensures from <= i <= |tools|
    ensures i < |tools| ==> k <= Prefix(tools, i + 1)
    ensures forall j :: from < j <= i ==> Prefix(tools, j) < k
    decreases |tools| - from
  {
    if from == |tools| || k <= Prefix(tools, from + 1) then from else PickAsWritten(tools, k, from + 1)
  }

  /** The evidently intended scan (`k < sum`): the first tool whose running
      total passes the draw k; |tools| when none does. */
  function Pick(tools: seq<Instruc>, k: int, from: int): (i: int)
    requires 0 <= from <= |tools|
    ensures from <= i <= |tools|
    ensures i < |tools| ==> k < Prefix(tools, i + 1)
    ensures forall j :: from < j <= i ==> Prefix(tools, j) <= k
    decreases |tools| - from
  {
    if from == |tools| || k < Prefix(tools, from + 1) then from else Pick(tools, k, from + 1)
  }

  /** The intended weighting: a draw k in [0, total) picks tool i exactly
      when it falls in i's share [Prefix(i), Prefix(i+1)), so each tool is
      picked by as many draws as its frequency. */
  lemma {:induction false} PickIsWeighted(tools: seq<Instruc>, k: int, i: int)
    requires forall m :: 0 <= m < |tools| ==> tools[m].frequency >= 1
    requires 0 <= k < Prefix(tools, |tools|) && 0 <= i < |tools|
    ensures Pick(tools, k, 0) == i <==> Prefix(tools, i) <= k < Prefix(tools, i + 1)
  {
    var p := Pick(tools, k, 0);
    if p + 1 < i {
      PrefixGrows(tools, p + 1, i);
    }
  }

  /** With every frequency 1, the intended scan picks tool k for draw k. */
  lemma {:induction false} PickOfOnes(tools: seq<Instruc>, k: int)
    requires forall j :: 0 <= j < |tools| ==> tools[j].frequency == 1
    requires 0 <= k < |tools|
    ensures Pick(tools, k, 0) == k
  {
    PrefixOfOnes(tools, |tools|);
    PrefixOfOnes(tools, k);
    PrefixOfOnes(tools, k + 1);
    var i := Pick(tools, k, 0);
    PrefixOfOnes(tools, i);
    if i < |tools| {
      PrefixOfOnes(tools, i + 1);
    }
  }

  /** With every frequency 1, the scan as written picks tool k - 1 for a
      draw k > 0, and tool 0 for both draws 0 and 1. */
  lemma {:induction false} PickAsWrittenOfOnes(tools: seq<Instruc>, k: int)
    requires forall j :: 0 <= j < |tools| ==> tools[j].frequency == 1
    requires 0 <= k < |tools|
    ensures PickAsWritten(tools, k, 0) == if k == 0 then 0 else k - 1
  {
    PrefixOfOnes(tools, |tools|);
    var i := PickAsWritten(tools, k, 0);
    PrefixOfOnes(tools, i);
    if i < |tools| {
      PrefixOfOnes(tools, i + 1);
    }
  }

  /** The source's `k <= sum` skews the toolbox: of the 32 draws, two pick
      `constant` and none picks the last tool, `rotcolor`; the corrected
      scan picks every tool for exactly one draw. */
  lemma PickAsWrittenSkews(k: int)
    requires 0 <= k < 32
    ensures Prefix(Toolbox, |Toolbox|) == 32
    ensures PickAsWritten(Toolbox, 0, 0) == 0 && PickAsWritten(Toolbox, 1, 0) == 0
    ensures PickAsWritten(Toolbox, k, 0) != |Toolbox| - 1
    ensures Pick(Toolbox, k, 0) == k
  {
    ToolboxOk();
    PrefixOfOnes(Toolbox, |Toolbox|);
    PickAsWrittenOfOnes(Toolbox, 0);
    PickAsWrittenOfOnes(Toolbox, 1);
    PickAsWrittenOfOnes(Toolbox, k);
    PickOfOnes(Toolbox, k);
  }

  /** `weighted_random_instruc`, with the comparison corrected to `k < sum`:
      the tool whose share of the total holds the draw `choose(total)`,
      `rand % total` for the random number `rand`. The toolbox is the
      parameter `tools`; `choose` needs a positive total. */
  method WeightedRandomInstruc(tools: seq<Instruc>, rand: u32) returns (ins: Instruc)
    requires 0 < Prefix(tools, |tools|)
    ensures var i := Pick(tools, rand % Prefix(tools, |tools|), 0); i < |tools| && ins == tools[i]
  {
    var total := FrequencySum(tools);
    var k := rand % total;
    var i := 0;
    var sum := tools[0].frequency;
    while sum <= k
      invariant 0 <= i < |tools| && sum == Prefix(tools, i + 1)
      invariant Pick(tools, k, 0) == Pick(tools, k, i)
      decreases |tools| - i
    {
      i := i + 1;
      sum := sum + tools[i].frequency;
    }
    ins := tools[i];
  }

  /** The instruction `random_instruc` returns for the draw `rand`: the
      tool `Pick` chooses, carrying the value bits `value` when it is a
      constant. */
  function RandomChoice(tools: seq<Instruc>, rand: u32, value: u32): (ins: Instruc)
    requires 0 < Prefix(tools, |tools|)
    ensures (forall i :: 0 <= i < |tools| ==> Pretendable(tools[i])) ==> Pretendable(ins)
  {
    var k := rand % Prefix(tools, |tools|);
    var i := Pick(tools, k, 0);
    assert i < |tools|;
    if tools[i].kind == Constant then tools[i].(constant := value) else tools[i]
  }

  /** `random_instruc`: a weighted random tool; a constant gets the value
      drawn by `choose_double`, whose bits are the parameter `value`. */
  method RandomInstruc(tools: seq<Instruc>, rand: u32, value: u32) returns (ins: Instruc)
    requires 0 < Prefix(tools, |tools|) && forall i :: 0 <= i < |tools| ==> Pretendable(tools[i])
    ensures ins == RandomChoice(tools, rand, value)
    ensures Pretendable(ins)
    ensures var i := Pick(tools, rand % Prefix(tools, |tools|), 0);
      i < |tools| && ins.kind == tools[i].kind && ins.opcode == tools[i].opcode &&
      ins.pops == tools[i].pops && ins.pushes == tools[i].pushes &&
      ins.constant == if ins.kind == Constant then value else tools[i].constant
  {
    ins := WeightedRandomInstruc(tools, rand);
    if ins.kind == Constant {
      ins := ins.(constant := value);
    }
  }

  /** Drawing from the toolbox: the corrected scan gives each of its 32
      tools one draw in 32, so draw k picks tool k. */
  lemma ToolboxDraw(rand: u32)
    ensures Prefix(Toolbox, |Toolbox|) == 32
    ensures Pick(Toolbox, rand % 32, 0) == rand % 32
  {
    PickAsWrittenSkews(rand % 32);
  }

  /** A toolbox `weighted_random_instruc` can draw from, all of whose
      tools the symbolic stack can run. */
  predicate Drawable(tools: seq<Instruc>)
  {
    0 < Prefix(tools, |tools|) && forall i :: 0 <= i < |tools| ==> Pretendable(tools[i])
  }

  /** The toolbox is such a toolbox. */
  lemma ToolboxDrawable()
    ensures Drawable(Toolbox)
  {
    ToolboxOk();
    ToolboxDraw(0);
  }

  /** `bump`: the slot `increment` steps from ptr around the circular
      stack. */
  function Bump(ptr: int, increment: int): (r: int)
    requires 0 <= ptr < StackLimit && -StackLimit <= increment <= StackLimit
    ensures 0 <= r < StackLimit
  {
    var p := ptr + increment;
    if increment < 0 then (if p < 0 then p + StackLimit else p)
    else (if StackLimit <= p then p - StackLimit else p)
  }

  /** `bump` is addition modulo the stack size (6). */
  lemma BumpIsMod(ptr: int, increment: int)
    requires 0 <= ptr < StackLimit && -StackLimit <= increment <= StackLimit
    ensures Bump(ptr, increment) == (ptr + increment) % 6
  {
  }

  /** Bumping back undoes a bump. */
  lemma {:induction false} BumpInverse(ptr: int, increment: int)
    requires 0 <= ptr < StackLimit && -StackLimit <= increment <= StackLimit
    ensures Bump(Bump(ptr, increment), -increment) == ptr
  {
    BumpIsMod(ptr, increment);
    BumpIsMod(Bump(ptr, increment), -increment);
  }

  /** Reducing before adding does not change a residue. */
  lemma ModAdd(a: int, b: int)
    ensures (a % 6 + b) % 6 == (a + b) % 6
  {
  }

  /** The expressions in one stack slot, one per colour component. */
  datatype Triple = Triple(r: Term, g: Term, b: Term)

  /** The node pointers in one stack slot. */
  datatype Ptrs = Ptrs(r: int, g: int, b: int)

  /** The symbolic stack as expressions: the stack pointer and the slots. */
  datatype Stack = Stack(ptr: int, r: seq<Term>, g: seq<Term>, b: seq<Term>)

  predicate StackOk(s: Stack)
  {
    0 <= s.ptr < StackLimit && |s.r| == StackLimit && |s.g| == StackLimit && |s.b| == StackLimit
  }

  function Slot(s: Stack, i: int): Triple
    requires StackOk(s) && 0 <= i < StackLimit
  {
    Triple(s.r[i], s.g[i], s.b[i])
  }

  /** The zero constant `clear_stack` fills the stack with. */
  const Zero: Term := Mk(Constant, 0, 0, 0, [])

  /** What `clear_stack` leaves: the zero constant in every slot. */
  function Cleared(): (s: Stack)
    ensures StackOk(s)
  {
    var zeros := seq(StackLimit, _ => Zero);
    Stack(0, zeros, zeros, zeros)
  }

  /** A one-argument operation applied to each component. */
  function Lift1(kind: OpKind, opcode: u32, step: int, x: Triple): Triple
  {
    Triple(Mk(kind, opcode, 0, step, [x.r]), Mk(kind, opcode, 0, step, [x.g]), Mk(kind, opcode, 0, step, [x.b]))
  }

  /** A two-argument operation applied to each component. */
  function Lift2(kind: OpKind, opcode: u32, step: int, x: Triple, y: Triple): Triple
  {
    Triple(Mk(kind, opcode, 0, step, [x.r, y.r]), Mk(kind, opcode, 0, step, [x.g, y.g]),
           Mk(kind, opcode, 0, step, [x.b, y.b]))
  }

  /** `hwb` makes one node from the three components; its parts select
      the second and third components of its result. */
  function LiftHwb(step: int, x: Triple): Triple
  {
    var h := Mk(Hwb, 0, 0, step, [x.r, x.g, x.b]);
    Triple(h, Mk(Part1, 0, 0, step, [h]), Mk(Part2, 0, 0, step, [h]))
  }

  /** `really_pretend`: the new top triple made from the top (tos), next
      (nos) and third (pos) triples. */
  function Effect(p: Instruc, step: int, tos: Triple, nos: Triple, pos: Triple): Triple
    requires Pretendable(p)
  {
    match p.kind
    case Opc0 =>
      var x := Mk(Opc0, p.opcode, 0, step, []);
      Triple(x, x, x)
    case Opc1 => Lift1(Opc1, p.opcode, step, tos)
    case Opc2 => Lift2(Opc2, p.opcode, step, tos, nos)
    case Mix => Lift2(Mix, 0, step, tos, nos)
    case Constant =>
      var x := Mk(Constant, 0, p.constant, step, []);
      Triple(x, x, x)
    case Color => Triple(tos.r, nos.g, pos.b)
    case Hwb => LiftHwb(step, tos)
    case RotColor => Triple(tos.g, tos.b, tos.r)
    case Sprinkle =>
      var x := Mk(Sprinkle, 0, 0, step, [tos.r]);
      Triple(x, x, x)
  }

  /** The stack s with slot t replaced by the triple e and the stack
      pointer at ptr. */
  function Put(s: Stack, t: int, e: Triple, ptr: int): (s': Stack)
    requires StackOk(s) && 0 <= t < StackLimit && 0 <= ptr < StackLimit
    ensures StackOk(s')
  {
    Stack(ptr, s.r[t := e.r], s.g[t := e.g], s.b[t := e.b])
  }

  /** `pretend`: pop, rewrite the new top slot by `Effect`, push. */
  function Step(s: Stack, p: Instruc, step: int): (s': Stack)
    requires StackOk(s) && Pretendable(p)
    ensures StackOk(s')
  {
    var t := Bump(s.ptr, -p.pops);
    Put(s, t, Effect(p, step, Slot(s, t), Slot(s, Bump(t, 1)), Slot(s, Bump(t, 2))), Bump(t, p.pushes))
  }

  lemma StepIsPut(s: Stack, p: Instruc, step: int, t: int)
    requires StackOk(s) && Pretendable(p) && t == Bump(s.ptr, -p.pops)
    ensures Step(s, p, step) == Put(s, t, Effect(p, step, Slot(s, t), Slot(s, Bump(t, 1)), Slot(s, Bump(t, 2))), Bump(t, p.pushes))
  {
  }

  /** `pretend` rewrites one slot: the one the stack pointer reaches after
      popping; every other slot keeps its expressions. */
  lemma {:induction false} StepTouchesOneSlot(s: Stack, p: Instruc, step: int, i: int)
    requires StackOk(s) && Pretendable(p) && 0 <= i < StackLimit && i != Bump(s.ptr, -p.pops)
    ensures Slot(Step(s, p, step), i) == Slot(s, i)
  {
  }

  /** The position of the first `end`. */
  function FirstEnd(program: seq<Instruc>, from: int): (i: int)
    requires 0 <= from <= |program| && exists j :: from <= j < |program| && program[j].kind == End
    ensures from <= i < |program| && program[i].kind == End
    ensures forall j :: from <= j < i ==> program[j].kind != End
    decreases |program| - from
  {
    if program[from].kind == End then from else FirstEnd(program, from + 1)
  }

  /** A program `compile` accepts: it ends, and every instruction before
      its first `end` can be run symbolically. */
  predicate Compilable(program: seq<Instruc>)
  {
    (exists j :: 0 <= j < |program| && program[j].kind == End) &&
    forall i :: 0 <= i < FirstEnd(program, 0) ==> Pretendable(program[i])
  }

  /** The stack after the first n instructions, from a cleared stack. */
  function Run(program: seq<Instruc>, n: int): (s: Stack)
    requires 0 <= n <= |program| && forall i :: 0 <= i < n ==> Pretendable(program[i])
    ensures StackOk(s)
  {
    if n == 0 then Cleared() else Step(Run(program, n - 1), program[n - 1], n - 1)
  }

  /** Running one more instruction is one more `pretend`. */
  lemma RunStep(program: seq<Instruc>, n: int)
    requires 0 <= n < |program| && forall i :: 0 <= i <= n ==> Pretendable(program[i])
    ensures Run(program, n + 1) == Step(Run(program, n), program[n], n)
  {
  }

  /** `pretend` moves the stack pointer by pushes minus pops, modulo the
      stack size. */
  lemma StepPointer(s: Stack, p: Instruc, step: int)
    requires StackOk(s) && Pretendable(p)
    ensures Step(s, p, step).ptr == (s.ptr + (p.pushes - p.pops)) % 6
  {
    var t := Bump(s.ptr, -p.pops);
    BumpIsMod(s.ptr, -p.pops);
    BumpIsMod(t, p.pushes);
    ModAdd(s.ptr - p.pops, p.pushes);
  }

  /** The meaning of a compiled program: its first `end` stops it, and the
      top of stack is the slot below the stack pointer. */
  function Compiled(program: seq<Instruc>): (s: Stack)
    requires Compilable(program)
    ensures StackOk(s)
  {
    var s := Run(program, FirstEnd(program, 0));
    s.(ptr := Bump(s.ptr, -1))
  }

  /** Pointers into the table. */
  ghost predicate InTable(nodes: seq<Node>, x: Ptrs)
  {
    0 <= x.r < |nodes| && 0 <= x.g < |nodes| && 0 <= x.b < |nodes|
  }

  /** The expressions a triple of pointers stands for. */
  ghost function Meaning(nodes: seq<Node>, x: Ptrs): Triple
    requires Dag(nodes) && InTable(nodes, x)
  {
    Triple(Denote(nodes, x.r), Denote(nodes, x.g), Denote(nodes, x.b))
  }

  lemma MeaningGrows(nodes: seq<Node>, more: seq<Node>, x: Ptrs)
    requires Dag(nodes) && Dag(more) && nodes <= more && InTable(nodes, x)
    ensures InTable(more, x) && Meaning(more, x) == Meaning(nodes, x)
  {
    DenoteGrows(nodes, more, x.r);
    DenoteGrows(nodes, more, x.g);
    DenoteGrows(nodes, more, x.b);
  }

  /** The node table and the three slot arrays of the symbolic stack. */
  class SymbolicStack {
    const table: NodeTable
    const rStack: array<int>
    const gStack: array<int>
    const bStack: array<int>
    var stackPtr: int

    /** The three slot arrays, distinct, of `StackLimit` pointers each
        into the first n nodes. */
    ghost predicate SlotsIn(n: int)
      reads rStack, gStack, bStack
    {
      rStack.Length == StackLimit && gStack.Length == StackLimit && bStack.Length == StackLimit &&
      rStack != gStack && gStack != bStack && rStack != bStack &&
      InArena(rStack[..], n) && InArena(gStack[..], n) && InArena(bStack[..], n)
    }

    /** The expressions the slots hold over the arena `nodes`, with the
        stack pointer at ptr. */
    ghost function View(nodes: seq<Node>, ptr: int): (s: Stack)
      reads rStack, gStack, bStack
      requires Dag(nodes) && SlotsIn(|nodes|) && 0 <= ptr < StackLimit
      ensures StackOk(s)
    {
      Stack(ptr, Terms(nodes, rStack[..]), Terms(nodes, gStack[..]), Terms(nodes, bStack[..]))
    }

    ghost predicate Valid()
      reads this, table, rStack, gStack, bStack
    {
      table.Valid() && 0 <= stackPtr < StackLimit && SlotsIn(|table.nodes|)
    }

    /** The expressions the stack holds. */
    ghost function Abs(): (s: Stack)
      reads this, table, rStack, gStack, bStack
      requires Valid()
      ensures StackOk(s) && s.ptr == stackPtr
    {
      View(table.nodes, stackPtr)
    }

    /** A stack over `table`, cleared. */
    constructor (table: NodeTable)
      requires table.Valid()
      modifies table
      ensures Valid() && this.table == table && Abs() == Cleared()
    {
      var z := MakeLeaf(table, Constant, 0, 0, 0);
      this.table := table;
      rStack := new int[StackLimit](_ => z);
      gStack := new int[StackLimit](_ => z);
      bStack := new int[StackLimit](_ => z);
      stackPtr := 0;
      new;
      assert rStack[..] == seq(StackLimit, _ => z);
      assert gStack[..] == seq(StackLimit, _ => z);
      assert bStack[..] == seq(StackLimit, _ => z);
      ZeroSlots(table.nodes, rStack[..], z);
      ZeroSlots(table.nodes, gStack[..], z);
      ZeroSlots(table.nodes, bStack[..], z);
    }

    /** `clear_stack`: every slot the zero constant, the pointer at 0. */
    method ClearStack()
      requires Valid()
      modifies table, rStack, gStack, bStack, this
      ensures Valid() && Abs() == Cleared() && old(table.nodes) <= table.nodes
    {
      var z := MakeLeaf(table, Constant, 0, 0, 0);
      stackPtr := 0;
      var i := 0;
      while i < StackLimit
        invariant 0 <= i <= StackLimit
        invariant forall j :: 0 <= j < i ==> rStack[j] == z && gStack[j] == z && bStack[j] == z
        modifies rStack, gStack, bStack
      {
        rStack[i], gStack[i], bStack[i] := z, z, z;
        i := i + 1;
      }
      assert rStack[..] == seq(StackLimit, _ => z);
      assert gStack[..] == seq(StackLimit, _ => z);
      assert bStack[..] == seq(StackLimit, _ => z);
      ZeroSlots(table.nodes, rStack[..], z);
      ZeroSlots(table.nodes, gStack[..], z);
      ZeroSlots(table.nodes, bStack[..], z);
    }

    /** The triples of pointers in slot t and the two slots above it (top,
        next and third of stack once t is the new top), as the expressions
        of those slots. */
    method Frame(ghost s: Stack, t: int) returns (tos: Ptrs, nos: Ptrs, pos: Ptrs)
      requires Valid() && s == Abs() && 0 <= t < StackLimit
      ensures InTable(table.nodes, tos) && Meaning(table.nodes, tos) == Slot(s, t)
      ensures InTable(table.nodes, nos) && Meaning(table.nodes, nos) == Slot(s, Bump(t, 1))
      ensures InTable(table.nodes, pos) && Meaning(table.nodes, pos) == Slot(s, Bump(t, 2))
    {
      var n, q := Bump(t, 1), Bump(t, 2);
      tos := Ptrs(rStack[t], gStack[t], bStack[t]);
      nos := Ptrs(rStack[n], gStack[n], bStack[n]);
      pos := Ptrs(rStack[q], gStack[q], bStack[q]);
    }

    /** `pretend`: pop, compute the new top triple, store it, push. */
    method Pretend(p: Instruc, step: int)
      requires Valid() && Pretendable(p)
      modifies table, rStack, gStack, bStack, this
      ensures Valid() && old(table.nodes) <= table.nodes
      ensures Abs() == Step(old(Abs()), p, step)
    {
      ghost var s := Abs();
      var t := Bump(stackPtr, -p.pops);
      Apply(s, p, step, t);
      StepIsPut(s, p, step, t);
    }

    /** The rest of `pretend` once the stack pointer has dropped to slot t:
        the new triple is made from the triples at t, t + 1 and t + 2 and
        stored in slot t. */
    method Apply(ghost s: Stack, p: Instruc, step: int, t: int)
      requires Valid() && s == Abs() && Pretendable(p) && 0 <= t < StackLimit
      modifies table, rStack, gStack, bStack, this
      ensures Valid() && old(table.nodes) <= table.nodes
      ensures Abs() == Put(s, t, Effect(p, step, Slot(s, t), Slot(s, Bump(t, 1)), Slot(s, Bump(t, 2))), Bump(t, p.pushes))
    {
      var tos, nos, pos := Frame(s, t);
      ghost var nodes0 := table.nodes;
      ghost var e := Effect(p, step, Slot(s, t), Slot(s, Bump(t, 1)), Slot(s, Bump(t, 2)));
      var res := Results(table, p, step, tos, nos, pos);
      Push(s, nodes0, t, res, e, Bump(t, p.pushes));
    }

    /** The second half of `pretend`: the triple x, made after `nodes0`,
        goes into slot t of the stack s and the stack pointer moves to ptr;
        the other slots keep their expressions as the table grows. */
    method Push(ghost s: Stack, ghost nodes0: seq<Node>, t: int, x: Ptrs, ghost e: Triple, ptr: int)
      requires table.Valid() && Dag(nodes0) && nodes0 <= table.nodes && SlotsIn(|nodes0|)
      requires StackOk(s) && s == View(nodes0, s.ptr) && 0 <= t < StackLimit && 0 <= ptr < StackLimit
      requires InTable(table.nodes, x) && Meaning(table.nodes, x) == e
      modifies this, rStack, gStack, bStack
      ensures table.nodes == old(table.nodes)
      ensures Valid() && Abs() == Put(s, t, e, ptr)
    {
      PutTerm(rStack, nodes0, table.nodes, t, x.r);
      PutTerm(gStack, nodes0, table.nodes, t, x.g);
      PutTerm(bStack, nodes0, table.nodes, t, x.b);
      stackPtr := ptr;
    }

    /** One more instruction of `compile`'s loop. */
    method Advance(program: seq<Instruc>, i: int)
      requires Valid() && Compilable(program) && 0 <= i < FirstEnd(program, 0)
      requires Abs() == Run(program, i)
      modifies table, rStack, gStack, bStack, this
      ensures Valid() && Abs() == Run(program, i + 1)
    {
      RunStep(program, i);
      Pretend(program[i], i);
    }

    /** `compile`: clear the stack, run every instruction before the first
        `end` symbolically, then step back to the top slot. The stack then
        holds exactly the expressions of `Compiled(program)`. */
    method Compile(program: seq<Instruc>)
      requires Valid() && Compilable(program) && |program| == ProgramLength
      modifies table, rStack, gStack, bStack, this
      ensures Valid() && Abs() == Compiled(program)
    {
      ClearStack();
      RunAll(program);
      StepBack(Abs());
    }

    /** `compile`'s loop: from a cleared stack, every instruction before
        the first `end`. */
    method RunAll(program: seq<Instruc>)
      requires Valid() && Compilable(program) && Abs() == Cleared()
      modifies table, rStack, gStack, bStack, this
      ensures Valid() && Abs() == Run(program, FirstEnd(program, 0))
    {
      var i := 0;
      ghost var last := FirstEnd(program, 0);
      while program[i].kind != End
        invariant 0 <= i <= last && Valid() && Abs() == Run(program, i)
        decreases last - i
      {
        Advance(program, i);
        i := i + 1;
      }
    }

    /** The last step of `compile`: the stack pointer moves back onto the
        top slot. */
    method StepBack(ghost s: Stack)
      requires Valid() && s == Abs()
      modifies this
      ensures Valid() && Abs() == s.(ptr := Bump(s.ptr, -1))
    {
      stackPtr := Bump(stackPtr, -1);
    }
  }

  /** `make_node` for a node without arguments, stated as the expression
      it stands for. */
  method MakeLeaf(table: NodeTable, kind: OpKind, opcode: u32, step: int, constant: u32) returns (x: int)
    requires table.Valid()
    modifies table
    ensures table.Valid() && old(table.nodes) <= table.nodes && 0 <= x < |table.nodes|
    ensures Denote(table.nodes, x) == Mk(kind, opcode, constant, step, [])
  {
    x := table.MakeNode(kind, opcode, step, constant, 0, Null, Null, Null);
  }

  /** `make_node` for one argument, stated as the expression it stands for. */
  method Make1(table: NodeTable, kind: OpKind, opcode: u32, step: int, a: int) returns (x: int)
    requires table.Valid() && 0 <= a < |table.nodes|
    modifies table
    ensures table.Valid() && old(table.nodes) <= table.nodes && 0 <= x < |table.nodes|
    ensures Denote(table.nodes, x) == Mk(kind, opcode, 0, step, [Denote(old(table.nodes), a)])
  {
    ghost var nodes0 := table.nodes;
    x := table.MakeNode(kind, opcode, step, 0, 1, a, Null, Null);
    ArgTerms1(nodes0, Node(kind, opcode, 1, [a, Null, Null], 0, step, 0));
  }

  /** `make_node` for two arguments, stated as the expression it stands for. */
  method Make2(table: NodeTable, kind: OpKind, opcode: u32, step: int, a: int, b: int) returns (x: int)
    requires table.Valid() && 0 <= a < |table.nodes| && 0 <= b < |table.nodes|
    modifies table
    ensures table.Valid() && old(table.nodes) <= table.nodes && 0 <= x < |table.nodes|
    ensures Denote(table.nodes, x) == Mk(kind, opcode, 0, step, [Denote(old(table.nodes), a), Denote(old(table.nodes), b)])
  {
    ghost var nodes0 := table.nodes;
    x := table.MakeNode(kind, opcode, step, 0, 2, a, b, Null);
    ArgTerms2(nodes0, Node(kind, opcode, 2, [a, b, Null], 0, step, 0));
  }

  /** A one-argument operation on each component of a triple. */
  method Map1(table: NodeTable, kind: OpKind, opcode: u32, step: int, x: Ptrs) returns (y: Ptrs)
    requires table.Valid() && InTable(table.nodes, x)
    modifies table
    ensures table.Valid() && old(table.nodes) <= table.nodes && InTable(table.nodes, y)
    ensures Meaning(table.nodes, y) == Lift1(kind, opcode, step, Meaning(old(table.nodes), x))
  {
    ghost var n0 := table.nodes;
    var r := Make1(table, kind, opcode, step, x.r);
    ghost var n1 := table.nodes;
    var g := Make1(table, kind, opcode, step, x.g);
    ghost var n2 := table.nodes;
    var b := Make1(table, kind, opcode, step, x.b);
    y := Ptrs(r, g, b);
    DenoteGrows(n1, table.nodes, r);
    DenoteGrows(n2, table.nodes, g);
    DenoteGrows(n0, n1, x.g);
    DenoteGrows(n0, n2, x.b);
  }

  /** A two-argument operation on each component of two triples. */
  method Map2(table: NodeTable, kind: OpKind, opcode: u32, step: int, x: Ptrs, z: Ptrs) returns (y: Ptrs)
    requires table.Valid() && InTable(table.nodes, x) && InTable(table.nodes, z)
    modifies table
    ensures table.Valid() && old(table.nodes) <= table.nodes && InTable(table.nodes, y)
    ensures Meaning(table.nodes, y) == Lift2(kind, opcode, step, Meaning(old(table.nodes), x), Meaning(old(table.nodes), z))
  {
    ghost var n0 := table.nodes;
    var r := Make2(table, kind, opcode, step, x.r, z.r);
    ghost var n1 := table.nodes;
    var g := Make2(table, kind, opcode, step, x.g, z.g);
    ghost var n2 := table.nodes;
    var b := Make2(table, kind, opcode, step, x.b, z.b);
    y := Ptrs(r, g, b);
    DenoteGrows(n1, table.nodes, r);
    DenoteGrows(n2, table.nodes, g);
    MeaningGrows(n0, n1, x);
    MeaningGrows(n0, n1, z);
    MeaningGrows(n0, n2, x);
    MeaningGrows(n0, n2, z);
  }

  /** The `hwb` node and its two parts. */
  method MakeHwb(table: NodeTable, step: int, x: Ptrs) returns (y: Ptrs)
    requires table.Valid() && InTable(table.nodes, x)
    modifies table
    ensures table.Valid() && old(table.nodes) <= table.nodes && InTable(table.nodes, y)
    ensures Meaning(table.nodes, y) == LiftHwb(step, Meaning(old(table.nodes), x))
  {
    ghost var n0 := table.nodes;
    var h := table.MakeNode(Hwb, 0, step, 0, 3, x.r, x.g, x.b);
    ArgTerms3(n0, Node(Hwb, 0, 3, [x.r, x.g, x.b], 0, step, 0));
    ghost var n1 := table.nodes;
    var p1 := Make1(table, Part1, 0, step, h);
    ghost var n2 := table.nodes;
    var p2 := Make1(table, Part2, 0, step, h);
    y := Ptrs(h, p1, p2);
    DenoteGrows(n1, table.nodes, h);
    DenoteGrows(n2, table.nodes, p1);
    DenoteGrows(n1, n2, h);
  }

  /** The switch of `really_pretend`: the nodes of the new top triple, made
      from the top, next and third triples. */
  method Results(table: NodeTable, p: Instruc, step: int, tos: Ptrs, nos: Ptrs, pos: Ptrs) returns (y: Ptrs)
    requires table.Valid() && Pretendable(p)
    requires InTable(table.nodes, tos) && InTable(table.nodes, nos) && InTable(table.nodes, pos)
    modifies table
    ensures table.Valid() && old(table.nodes) <= table.nodes && InTable(table.nodes, y)
    ensures Meaning(table.nodes, y) ==
      Effect(p, step, Meaning(old(table.nodes), tos), Meaning(old(table.nodes), nos), Meaning(old(table.nodes), pos))
  {
    match p.kind
    case Opc0 =>
      var x := MakeLeaf(table, Opc0, p.opcode, step, 0);
      y := Ptrs(x, x, x);
    case Opc1 =>
      y := Map1(table, Opc1, p.opcode, step, tos);
    case Opc2 =>
      y := Map2(table, Opc2, p.opcode, step, tos, nos);
    case Mix =>
      y := Map2(table, Mix, 0, step, tos, nos);
    case Constant =>
      var x := MakeLeaf(table, Constant, 0, step, p.constant);
      y := Ptrs(x, x, x);
    case Color =>
      y := Ptrs(tos.r, nos.g, pos.b);
    case Hwb =>
      y := MakeHwb(table, step, tos);
    case RotColor =>
      y := Ptrs(tos.g, tos.b, tos.r);
    case Sprinkle =>
      var x := Make1(table, Sprinkle, 0, step, tos.r);
      y := Ptrs(x, x, x);
  }

  /** The argument expressions of a one-argument node about to be made. */
  lemma ArgTerms1(nodes: seq<Node>, n: Node)
    requires Dag(nodes) && WellFormed(n, |nodes|) && n.arity == 1
    ensures ArgTerms(nodes, n, |nodes|) == [Denote(nodes, n.args[0])]
  {
    assert ArgTerms(nodes, n, |nodes|)[0] == Denote(nodes, n.args[0]);
  }

  /** ... of a two-argument node. */
  lemma ArgTerms2(nodes: seq<Node>, n: Node)
    requires Dag(nodes) && WellFormed(n, |nodes|) && n.arity == 2
    ensures ArgTerms(nodes, n, |nodes|) == [Denote(nodes, n.args[0]), Denote(nodes, n.args[1])]
  {
    var ts := ArgTerms(nodes, n, |nodes|);
    Listed2(ts);
    assert ts[0] == Denote(nodes, n.args[0]);
    assert ts[1] == Denote(nodes, n.args[1]);
  }

  /** ... of a three-argument node. */
  lemma ArgTerms3(nodes: seq<Node>, n: Node)
    requires Dag(nodes) && WellFormed(n, |nodes|) && n.arity == 3
    ensures ArgTerms(nodes, n, |nodes|) == [Denote(nodes, n.args[0]), Denote(nodes, n.args[1]), Denote(nodes, n.args[2])]
  {
    var ts := ArgTerms(nodes, n, |nodes|);
    Listed3(ts);
    assert ts[0] == Denote(nodes, n.args[0]);
    assert ts[1] == Denote(nodes, n.args[1]);
    assert ts[2] == Denote(nodes, n.args[2]);
  }

  lemma Listed2<T>(ts: seq<T>)
    requires |ts| == 2
    ensures ts == [ts[0], ts[1]]
  {
  }

  lemma Listed3<T>(ts: seq<T>)
    requires |ts| == 3
    ensures ts == [ts[0], ts[1], ts[2]]
  {
  }

  /** Storing node v in slot t of a slot array whose pointers lie in the
      arena `nodes0`, which has since grown to `nodes`. */
  method PutTerm(a: array<int>, ghost nodes0: seq<Node>, ghost nodes: seq<Node>, t: int, v: int)
    requires Dag(nodes0) && Dag(nodes) && nodes0 <= nodes && InArena(a[..], |nodes0|)
    requires 0 <= t < a.Length && 0 <= v < |nodes|
    modifies a
    ensures InArena(a[..], |nodes|)
    ensures Terms(nodes, a[..]) == Terms(nodes0, old(a[..]))[t := Denote(nodes, v)]
  {
    TermsGrow(nodes0, nodes, a[..]);
    TermsUpdate(nodes, a[..], t, v);
    a[t] := v;
  }

  /** The expressions of a list of node pointers. */
  ghost function Terms(nodes: seq<Node>, ps: seq<int>): (ts: seq<Term>)
    requires Dag(nodes) && InArena(ps, |nodes|)
    ensures |ts| == |ps|
  {
    seq(|ps|, i requires 0 <= i < |ps| => Denote(nodes, ps[i]))
  }

  /** Growing the table keeps a slot array's expressions. */
  lemma {:induction false} TermsGrow(nodes: seq<Node>, more: seq<Node>, ps: seq<int>)
    requires Dag(nodes) && Dag(more) && nodes <= more && InArena(ps, |nodes|)
    ensures InArena(ps, |more|) && Terms(more, ps) == Terms(nodes, ps)
  {
    forall i | 0 <= i < |ps|
      ensures Denote(more, ps[i]) == Denote(nodes, ps[i])
    {
      DenoteGrows(nodes, more, ps[i]);
    }
  }

  /** Storing x in slot t changes that slot's expression only. */
  lemma {:induction false} TermsUpdate(nodes: seq<Node>, ps: seq<int>, t: int, x: int)
    requires Dag(nodes) && InArena(ps, |nodes|) && 0 <= t < |ps| && 0 <= x < |nodes|
    ensures InArena(ps[t := x], |nodes|)
    ensures Terms(nodes, ps[t := x]) == Terms(nodes, ps)[t := Denote(nodes, x)]
  {
  }

  /** A slot array filled with the zero node holds the zero constant. */
  lemma {:induction false} ZeroSlots(nodes: seq<Node>, ps: seq<int>, z: int)
    requires Dag(nodes) && 0 <= z < |nodes| && Denote(nodes, z) == Zero
    requires ps == seq(StackLimit, _ => z)
    ensures InArena(ps, |nodes|) && Terms(nodes, ps) == seq(StackLimit, _ => Zero)
  {
  }
}
