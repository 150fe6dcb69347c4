/** The tusl virtual machine (tusl.c, `ts_VM`): a data stack, a byte arena
    holding compiled code and strings, a dictionary of words, the executor
    that runs compiled sequences, and the text interpreter that reads
    tokens and dispatches them by mode. Errors, which the C code raises by
    `longjmp` to the innermost handler, are an explicit `Outcome` here;
    every state change made before an error stays, as in C. */
module Tusl {
  import opened Cells
  import opened TuslPrims
  import opened TuslSpace
  import opened TuslWords
  import opened TuslText

  /** The depth of the data stack (its value lives in tusl.h, which is not
      part of this model). */
  const StackSize: int := 256

  /** The token buffer of the loading and interactive loops. */
  const TokenSize: int := 1024

  /** How a VM operation ended: normally, by raising an error with its
      message, or by running out of the step budget this model adds. */
  datatype Outcome = Normal | Raised(message: string) | OutOfFuel

  function OutOfRange(i: int): string {
    "Data reference out of range: " + Decimal(i)
  }

  /** The printed stack: the cells bottom first, separated by spaces. */
  function StackText(s: seq<i32>): string
    decreases |s|
  {
    if |s| == 0 then ""
    else if |s| == 1 then Decimal(s[0])
    else StackText(s[..|s| - 1]) + " " + Decimal(s[|s| - 1])
  }

  lemma StackTextGrows(s: seq<i32>, i: nat, piece: string)
    requires i < |s|
    requires piece == if i == 0 then Decimal(s[i]) else " " + Decimal(s[i])
    ensures StackText(s[..i + 1]) == StackText(s[..i]) + piece
  {
    if i == 0 {
      assert s[..1] == [s[0]];
    } else {
      var t := s[..i + 1];
      assert t[..|t| - 1] == s[..i] && t[|t| - 1] == s[i];
      assert StackText(t) == StackText(s[..i]) + " " + Decimal(s[i]);
      AppendAssociates(StackText(s[..i]), " ", Decimal(s[i]));
    }
  }

  /** The first character of a token as `dispatch` sees it; an empty
      token reads as its terminating NUL. */
  function Lead(token: string): char {
    if |token| > 0 then token[0] else 0 as char
  }

  /** The mode characters `' : ( )`. */
  predicate IsModeChar(c: char) {
    var k := Code(c);
    k == 39 || k == 58 || k == 40 || k == 41
  }

  /** A literal compiled below `there` leaves the string area alone. */
  lemma CompilePushKeepsStrings(d0: seq<Byte>, d1: seq<Byte>, here: i32, there: int)
    requires |d0| == |d1| == DataSize && 0 <= there <= DataSize
    requires var a := CellAlign(here);
             0 <= a && a + 2 * CellSize <= there && d1[a + 2 * CellSize..] == d0[a + 2 * CellSize..]
    ensures d1[there..] == d0[there..]
  {
    var a := CellAlign(here);
    assert d1[there..] == d1[a + 2 * CellSize..][there - (a + 2 * CellSize)..];
    assert d0[there..] == d0[a + 2 * CellSize..][there - (a + 2 * CellSize)..];
  }

  lemma AppendAssociates(a: string, b: string, c: string)
    ensures a + b + c == a + (b + c)
  {
  }

  /** The input that `skip_line` consumes: through the first newline or
      EOF byte, or all of it. */
  function LineEnd(s: string, i: nat): (j: nat)
    requires i <= |s|
    ensures i <= j <= |s|
    decreases |s| - i
  {
    if i == |s| then i
    else if Code(s[i]) == Eof || Code(s[i]) == 10 then i + 1
    else LineEnd(s, i + 1)
  }

  /** The buffered input that `discard_input` throws away: the rest of
      the line the line-reading input source last delivered. */
  function BufferEnd(s: string, i: nat): (j: nat)
    requires i <= |s|
    ensures i <= j <= |s|
    decreases |s| - i
  {
    if i == |s| then i
    else if s[i] == '\n' then i + 1
    else BufferEnd(s, i + 1)
  }

  /** What `prompt` writes: the mode, and the stack height when not empty. */
  function PromptText(mode: char, height: nat): string {
    [mode, ' '] + (if height > 0 then "<" + Decimal(height) + "> " else "")
  }

  class VM {
    const data: array<Byte>
    /** The next free byte for code; `allot` moves it freely, so it may lie
        anywhere in the `int` range. */
    var here: i32
    /** The start of the string area, which grows down from the arena's end. */
    var there: int
    var words: seq<Word>
    /** The data stack, bottom first. */
    var stack: seq<i32>
    var mode: char
    /** The offset in `data` of the next cell to execute. */
    var pc: int
    /** The input not yet consumed. */
    var input: string
    /** Everything written to the output. */
    var output: string
    /** Whether the (stderr-only) tracer is installed. */
    var tracing: bool
    /** What a native word's C function returns for its arguments. */
    const host: (i32, seq<i32>) -> i32
    /** What `strtod` makes of a numeral that is not an integer. */
    const floatBits: string -> Option<i32>

    predicate Valid()
      reads this
    {
      data.Length == DataSize && 0 <= there <= DataSize && |stack| <= StackSize
      && LastSpecialPrim < |words| <= DictionarySize
    }

    /** `ts_vm_make`: an empty stack and arena (whose bytes `malloc` leaves
        unset) and a dictionary holding only the special words. */
    constructor (host: (i32, seq<i32>) -> i32, floatBits: string -> Option<i32>)
      ensures Valid()
      ensures here == 0 && there == DataSize && words == SpecialWords()
      ensures stack == [] && mode == '(' && pc == 0 && !tracing
      ensures input == [] && output == []
      ensures this.host == host && this.floatBits == floatBits
    {
      data := new Byte[DataSize];
      here := 0;
      there := DataSize;
      words := SpecialWords();
      stack := [];
      mode := '(';
      pc := 0;
      input := [];
      output := [];
      tracing := false;
      this.host := host;
      this.floatBits := floatBits;
    }

    // The stack

    /** `ts_push`: fails when the stack is full. */
    method Push(v: i32) returns (o: Outcome)
      modifies this`stack
      ensures o != OutOfFuel
      ensures o == Normal <==> |old(stack)| < StackSize
      ensures o == Normal ==> stack == old(stack) + [v]
      ensures o != Normal ==> o == Raised("Stack overflow") && stack == old(stack)
    {
      if |stack| >= StackSize {
        return Raised("Stack overflow");
      }
      stack := stack + [v];
      return Normal;
    }

    /** The input side of a primitive (`ts_INPUT_n`): check that `n` cells
        are there, then take them off, the deepest first in `args`. */
    method Pops(n: nat) returns (o: Outcome, args: seq<i32>)
      modifies this`stack
      ensures o != OutOfFuel
      ensures o == Normal <==> n <= |old(stack)|
      ensures o == Normal ==> stack + args == old(stack) && |args| == n
      ensures o != Normal ==> o == Raised("Stack underflow") && stack == old(stack)
    {
      if |stack| < n {
        return Raised("Stack underflow"), [];
      }
      var k := |stack| - n;
      args := stack[k..];
      stack := stack[..k];
      assert stack + args == old(stack);
      return Normal, args;
    }

    // The data space

    /** `*data_cell (vm, i)`, with the corrected range check. */
    method FetchCell(i: int) returns (o: Outcome, v: i32)
      requires data.Length == DataSize
      ensures o != OutOfFuel
      ensures o == Normal <==> CellOk(i)
      ensures o == Normal ==> v == CellAt(data[..], i)
      ensures o != Normal ==> o == Raised(OutOfRange(i))
    {
      if !CellOk(i) {
        return Raised(OutOfRange(i)), 0;
      }
      return Normal, CellAt(data[..], i);
    }

    /** `*data_cell (vm, i) = v`, with the corrected range check. */
    method StoreCellAt(i: int, v: i32) returns (o: Outcome)
      requires data.Length == DataSize
      modifies data
      ensures o != OutOfFuel
      ensures o == Normal <==> CellOk(i)
      ensures o == Normal ==> data[..] == StoreCell(old(data[..]), i, v)
      ensures o != Normal ==> o == Raised(OutOfRange(i)) && data[..] == old(data[..])
    {
      if !CellOk(i) {
        return Raised(OutOfRange(i));
      }
      var b := CellBytes(v);
      data[i] := b[0];
      data[i + 1] := b[1];
      data[i + 2] := b[2];
      data[i + 3] := b[3];
      assert data[..] == StoreCell(old(data[..]), i, v);
      return Normal;
    }

    /** `strcpy (data + at, text)`: the text and a terminating NUL. */
    method CopyInto(at: int, text: seq<Byte>)
      requires data.Length == DataSize && 0 <= at && at + |text| + 1 <= DataSize
      modifies data
      ensures data[..] == CopyString(old(data[..]), at, text)
    {
      var i := 0;
      while i < |text|
        invariant 0 <= i <= |text|
        invariant forall j | 0 <= j < DataSize :: data[j] == if at <= j < at + i then text[j - at] else old(data[j])
      {
        data[at + i] := text[i];
        i := i + 1;
      }
      data[at + |text|] := 0;
    }

    // The dictionary

    /** `ts_lookup`: search from the newest word back. */
    method Lookup(name: string) returns (r: int)
      ensures r == FindLast(words, name)
    {
      var i := |words| - 1;
      while 0 <= i
        invariant -1 <= i < |words|
        invariant forall j | i < j < |words| :: words[j].name != name
        decreases i + 1
      {
        if words[i].name == name {
          return i;
        }
        i := i - 1;
      }
      return NotFound;
    }

    /** `ts_install`: append a word unless the dictionary is full. */
    method Install(name: string, action: Action, datum: i32) returns (o: Outcome)
      modifies this`words
      ensures o != OutOfFuel
      ensures o == Normal <==> |old(words)| < DictionarySize
      ensures o == Normal ==> words == old(words) + [Word(name, action, datum)]
      ensures o != Normal ==> o == Raised("Too many words") && words == old(words)
    {
      if DictionarySize <= |words| {
        return Raised("Too many words");
      }
      words := words + [Word(name, action, datum)];
      return Normal;
    }

    // Compiling into the data space

    /** `compile`, corrected so that the aligned cell must end at or below
        `there`: align `here`, store `c` there and advance by one cell. */
    method Compile(c: i32) returns (o: Outcome)
      requires Valid()
      modifies this`here, data
      ensures o != OutOfFuel
      ensures var a := CellAlign(old(here));
              (o == Normal <==> CompileFits(old(here), there))
              && (o == Normal ==> data[..] == StoreCell(old(data[..]), a, c) && here == a + CellSize)
              && (o != Normal ==> here == a && data[..] == old(data[..]))
      ensures o != Normal && there < CellAlign(old(here)) + CellSize ==> o == Raised("Out of data space")
    {
      here := CellAlign(here);
      if there - CellSize < here {
        return Raised("Out of data space");
      }
      o := StoreCellAt(here, c);
      if o == Normal {
        here := here + CellSize;
      }
    }

    /** `compile_push`: compile a literal that pushes `c` when run. */
    method CompilePush(c: i32) returns (o: Outcome)
      requires Valid()
      modifies this`here, data
      ensures o != OutOfFuel
      ensures o == Normal ==>
                var a := CellAlign(old(here));
                0 <= a && a + 2 * CellSize <= there && here == a + 2 * CellSize
                && CellAt(data[..], a) == Literal && CellAt(data[..], a + CellSize) == c
                && data[..a] == old(data[..a]) && data[a + 2 * CellSize..] == old(data[a + 2 * CellSize..])
    {
      var a := CellAlign(here);
      AlignHigh(here);
      o := Compile(Literal);
      if o != Normal {
        return;
      }
      assert CellAlign(here) == here;
      ghost var first := data[..];
      o := Compile(c);
      if o == Normal {
        CompilesFollow(old(data[..]), first, data[..], a, c);
      }
    }

    /** `compile_string`: copy a token's text (up to its first NUL) and a
        terminating NUL below `there`, lowering `there`. The C check lets
        `there` go below zero when `allot` has made `here` negative; the
        model refuses that as well. */
    method CompileString(token: string) returns (o: Outcome, index: int)
      requires Valid()
      modifies this`there, data
      ensures o != OutOfFuel
      ensures var t := CText(token);
              (o == Normal <==> here <= old(there) - (|t| + 1) && 0 <= old(there) - (|t| + 1))
              && (o == Normal ==> index == there == old(there) - (|t| + 1)
                                  && data[..] == CopyString(old(data[..]), there, ToBytes(t)))
              && (o != Normal ==> o == Raised("Out of string space") && there == old(there)
                                  && data[..] == old(data[..]))
    {
      var t := CText(token);
      var size := |t| + 1;
      if there - size < here || there - size < 0 {
        return Raised("Out of string space"), 0;
      }
      var at := there - size;
      there := at;
      CopyInto(at, ToBytes(t));
      return Normal, at;
    }

    /** `ts_make_constant`: pop `z` and make the newest word push it. */
    method ExecMakeConstant() returns (o: Outcome)
      requires Valid()
      modifies this`stack, this`words
      ensures o != OutOfFuel
      ensures NamesOf(words) == NamesOf(old(words)) && |stack| <= |old(stack)|
      ensures o == Normal <==> |old(stack)| >= 1
      ensures o == Normal ==>
                var n := |old(stack)|;
                var last := |old(words)| - 1;
                stack == old(stack)[..n - 1]
                && words == old(words)[last := Word(old(words)[last].name, PushDatum, old(stack)[n - 1])]
      ensures o != Normal ==> o == Raised("Stack underflow") && words == old(words) && stack == old(stack)
    {
      var last := |words| - 1;
      var args;
      o, args := Pops(1);
      if o != Normal {
        return;
      }
      var w := Word(words[last].name, PushDatum, args[0]);
      RewriteKeepsNames(words, last, w);
      words := words[last := w];
    }

    // The integer primitives

    /** A `define2` word: pop `y` and `z`, push `y op z`. Division by zero
        is raised by `nonzero` before the output adjusts the stack, so the
        inputs stay on it. */
    method ExecBinary(op: BinOp) returns (o: Outcome)
      modifies this`stack
      ensures o != OutOfFuel && |stack| <= |old(stack)|
      ensures |old(stack)| < 2 ==> o == Raised("Stack underflow") && stack == old(stack)
      ensures |old(stack)| >= 2 ==>
                var n := |old(stack)|;
                var r := Binary(op, old(stack)[n - 2], old(stack)[n - 1]);
                (r.Ok? ==> o == Normal && stack == old(stack)[..n - 2] + [r.value])
                && (r.Err? ==> o == Raised(r.message) && stack == old(stack))
    {
      var n := |stack|;
      if n < 2 {
        return Raised("Stack underflow");
      }
      var r := Binary(op, stack[n - 2], stack[n - 1]);
      if r.Err? {
        return Raised(r.message);
      }
      stack := stack[..n - 2] + [r.value];
      o := Normal;
    }

    /** A `define1` arithmetic word: replace the top `z` by `op z`. */
    method ExecUnary(op: UnOp) returns (o: Outcome)
      modifies this`stack
      ensures o != OutOfFuel && |stack| == |old(stack)|
      ensures o == Normal <==> |old(stack)| >= 1
      ensures o == Normal ==>
                var n := |old(stack)|;
                stack == old(stack)[..n - 1] + [Unary(op, old(stack)[n - 1])]
      ensures o != Normal ==> o == Raised("Stack underflow")
    {
      var args;
      o, args := Pops(1);
      if o != Normal {
        return;
      }
      stack := stack + [Unary(op, args[0])];
    }

    // The memory primitives

    /** `@`: replace the address `z` by the cell stored there. The range
        error is raised while the output's value is computed, before the
        stack is adjusted, so the address stays on it. */
    method ExecFetch() returns (o: Outcome)
      requires data.Length == DataSize
      modifies this`stack
      ensures o != OutOfFuel && |stack| == |old(stack)|
      ensures |old(stack)| == 0 ==> o == Raised("Stack underflow") && stack == old(stack)
      ensures |old(stack)| >= 1 ==>
                var n := |old(stack)|;
                var z := old(stack)[n - 1];
                (o == Normal <==> CellOk(z))
                && (o == Normal ==> stack == old(stack)[..n - 1] + [CellAt(data[..], z)])
                && (o != Normal ==> o == Raised(OutOfRange(z)) && stack == old(stack))
    {
      var n := |stack|;
      if n == 0 {
        return Raised("Stack underflow");
      }
      var v;
      o, v := FetchCell(stack[n - 1]);
      if o == Normal {
        stack := stack[..n - 1] + [v];
      }
    }

    /** `!`: pop `y` and the address `z`, and store `y` in the cell at `z`. */
    method ExecStore() returns (o: Outcome)
      requires data.Length == DataSize
      modifies this`stack, data
      ensures o != OutOfFuel && |stack| <= |old(stack)|
      ensures |old(stack)| < 2 ==> o == Raised("Stack underflow") && stack == old(stack) && data[..] == old(data[..])
      ensures |old(stack)| >= 2 ==>
                var n := |old(stack)|;
                var y, z := old(stack)[n - 2], old(stack)[n - 1];
                stack == old(stack)[..n - 2]
                && (o == Normal <==> CellOk(z))
                && (o == Normal ==> data[..] == StoreCell(old(data[..]), z, y))
                && (o != Normal ==> o == Raised(OutOfRange(z)) && data[..] == old(data[..]))
    {
      var args;
      o, args := Pops(2);
      if o != Normal {
        return;
      }
      o := StoreCellAt(args[1], args[0]);
    }

    /** `+!`: pop `y` and the address `z`, and add `y` to the cell at `z`. */
    method ExecPlusStore() returns (o: Outcome)
      requires data.Length == DataSize
      modifies this`stack, data
      ensures o != OutOfFuel && |stack| <= |old(stack)|
      ensures |old(stack)| < 2 ==> o == Raised("Stack underflow") && stack == old(stack) && data[..] == old(data[..])
      ensures |old(stack)| >= 2 ==>
                var n := |old(stack)|;
                var y, z := old(stack)[n - 2], old(stack)[n - 1];
                stack == old(stack)[..n - 2]
                && (o == Normal <==> CellOk(z))
                && (o == Normal ==> data[..] == StoreCell(old(data[..]), z, Wrap(CellAt(old(data[..]), z) as int + y)))
                && (o != Normal ==> o == Raised(OutOfRange(z)) && data[..] == old(data[..]))
    {
      var args;
      o, args := Pops(2);
      if o != Normal {
        return;
      }
      var v;
      o, v := FetchCell(args[1]);
      if o == Normal {
        o := StoreCellAt(args[1], Wrap(v as int + args[0]));
      }
    }

    /** `c@`: replace the address `z` by the byte stored there; as for `@`,
        a range error leaves the address on the stack. */
    method ExecCFetch() returns (o: Outcome)
      requires data.Length == DataSize
      modifies this`stack
      ensures o != OutOfFuel && |stack| == |old(stack)|
      ensures |old(stack)| == 0 ==> o == Raised("Stack underflow") && stack == old(stack)
      ensures |old(stack)| >= 1 ==>
                var n := |old(stack)|;
                var z := old(stack)[n - 1];
                (o == Normal <==> ByteOk(z))
                && (o == Normal ==> stack == old(stack)[..n - 1] + [data[z] as i32])
                && (o != Normal ==> o == Raised(OutOfRange(z)) && stack == old(stack))
    {
      var n := |stack|;
      if n == 0 {
        return Raised("Stack underflow");
      }
      var z := stack[n - 1];
      if !ByteOk(z) {
        return Raised(OutOfRange(z));
      }
      stack := stack[..n - 1] + [data[z] as i32];
      o := Normal;
    }

    /** `c!`: pop `y` and the address `z`, and store the low byte of `y`
        at `z`. */
    method ExecCStore() returns (o: Outcome)
      requires data.Length == DataSize
      modifies this`stack, data
      ensures o != OutOfFuel && |stack| <= |old(stack)|
      ensures |old(stack)| < 2 ==> o == Raised("Stack underflow") && stack == old(stack) && data[..] == old(data[..])
      ensures |old(stack)| >= 2 ==>
                var n := |old(stack)|;
                var y, z := old(stack)[n - 2], old(stack)[n - 1];
                stack == old(stack)[..n - 2]
                && (o == Normal <==> ByteOk(z))
                && (o == Normal ==> data[..] == old(data[..])[z := ToUnsigned(y) % 256])
                && (o != Normal ==> o == Raised(OutOfRange(z)) && data[..] == old(data[..]))
    {
      var args;
      o, args := Pops(2);
      if o != Normal {
        return;
      }
      var z := args[1];
      if !ByteOk(z) {
        return Raised(OutOfRange(z));
      }
      data[z] := ToUnsigned(args[0]) % 256;
    }

    // The output primitives

    /** `emit`: pop `z` and write it as one character (its low byte). */
    method ExecEmit() returns (o: Outcome)
      modifies this`stack, this`output
      ensures o != OutOfFuel && |stack| <= |old(stack)|
      ensures o == Normal <==> |old(stack)| >= 1
      ensures o == Normal ==>
                var n := |old(stack)|;
                stack == old(stack)[..n - 1]
                && output == old(output) + [(ToUnsigned(old(stack)[n - 1]) % 256) as char]
      ensures o != Normal ==> o == Raised("Stack underflow") && output == old(output)
    {
      var args;
      o, args := Pops(1);
      if o != Normal {
        return;
      }
      output := output + [(ToUnsigned(args[0]) % 256) as char];
    }

    /** `.`: pop `z` and write it in decimal, followed by a space. */
    method ExecPrint() returns (o: Outcome)
      modifies this`stack, this`output
      ensures o != OutOfFuel && |stack| <= |old(stack)|
      ensures o == Normal <==> |old(stack)| >= 1
      ensures o == Normal ==>
                var n := |old(stack)|;
                stack == old(stack)[..n - 1] && output == old(output) + Decimal(old(stack)[n - 1]) + " "
      ensures o != Normal ==> o == Raised("Stack underflow") && output == old(output)
    {
      var args;
      o, args := Pops(1);
      if o != Normal {
        return;
      }
      output := output + Decimal(args[0]) + " ";
    }

    /** `.s`: write the stack, bottom first, and a newline. */
    method ExecPrintStack()
      modifies this`output
      ensures output == old(output) + StackText(stack) + "\n"
    {
      var cells := stack;
      var start := output;
      var i := 0;
      while i < |cells|
        invariant 0 <= i <= |cells|
        invariant output == start + StackText(cells[..i])
      {
        var piece := if i == 0 then Decimal(cells[i]) else " " + Decimal(cells[i]);
        StackTextGrows(cells, i, piece);
        AppendAssociates(start, StackText(cells[..i]), piece);
        output := output + piece;
        i := i + 1;
      }
      assert cells[..i] == cells;
      output := output + "\n";
    }

    /** `error`: pop the address `z` and raise the string stored there. */
    method ExecRaiseError() returns (o: Outcome)
      requires data.Length == DataSize
      modifies this`stack
      ensures |stack| <= |old(stack)|
      ensures |old(stack)| == 0 ==> o == Raised("Stack underflow")
      ensures |old(stack)| >= 1 ==>
                var z := old(stack)[|old(stack)| - 1];
                stack == old(stack)[..|old(stack)| - 1]
                && o == Raised(if ByteOk(z) then FromBytes(CString(data[..], z)) else OutOfRange(z))
    {
      var args;
      o, args := Pops(1);
      if o != Normal {
        return;
      }
      var z := args[0];
      if !ByteOk(z) {
        return Raised(OutOfRange(z));
      }
      return Raised(FromBytes(CString(data[..], z)));
    }

    // The data-space primitives

    /** `allot`: pop `z` and move `here` by `z` bytes, wrapping as the C
        `int` addition does. */
    method ExecAllot() returns (o: Outcome)
      modifies this`stack, this`here
      ensures o != OutOfFuel && |stack| <= |old(stack)|
      ensures o == Normal <==> |old(stack)| >= 1
      ensures o == Normal ==>
                var n := |old(stack)|;
                stack == old(stack)[..n - 1] && here == Wrap(old(here) + old(stack)[n - 1])
      ensures o != Normal ==> o == Raised("Stack underflow") && here == old(here)
    {
      var args;
      o, args := Pops(1);
      if o != Normal {
        return;
      }
      here := Wrap(here + args[0]);
    }

    /** `,`: pop `z` and compile it. */
    method ExecComma() returns (o: Outcome)
      requires Valid()
      modifies this`stack, this`here, data
      ensures o != OutOfFuel && |stack| <= |old(stack)|
      ensures |old(stack)| == 0 ==> o == Raised("Stack underflow")
      ensures |old(stack)| >= 1 ==>
                var n := |old(stack)|;
                var a := CellAlign(old(here));
                stack == old(stack)[..n - 1]
                && (o == Normal <==> CompileFits(old(here), there))
                && (o == Normal ==> data[..] == StoreCell(old(data[..]), a, old(stack)[n - 1]) && here == a + CellSize)
    {
      var args;
      o, args := Pops(1);
      if o != Normal {
        return;
      }
      o := Compile(args[0]);
    }

    /** `#`: pop `z` and compile a literal that pushes it. */
    method ExecMakeLiteral() returns (o: Outcome)
      requires Valid()
      modifies this`stack, this`here, data
      ensures o != OutOfFuel && |stack| <= |old(stack)|
      ensures |old(stack)| == 0 ==> o == Raised("Stack underflow")
      ensures |old(stack)| >= 1 && o == Normal ==>
                var n := |old(stack)|;
                var a := CellAlign(old(here));
                stack == old(stack)[..n - 1]
                && 0 <= a && a + 2 * CellSize <= there && here == a + 2 * CellSize
                && CellAt(data[..], a) == Literal && CellAt(data[..], a + CellSize) == old(stack)[n - 1]
    {
      var args;
      o, args := Pops(1);
      if o != Normal {
        return;
      }
      o := CompilePush(args[0]);
    }

    /** A native word: pop `arity` arguments, call the host function, and
        push its result if it has one. */
    method ExecNative(datum: i32, arity: nat, pushes: bool) returns (o: Outcome)
      modifies this`stack
      ensures o != OutOfFuel
      ensures |old(stack)| < arity ==> o == Raised("Stack underflow") && stack == old(stack)
      ensures |old(stack)| >= arity ==>
                var k := |old(stack)| - arity;
                var rest := old(stack)[..k];
                if !pushes then o == Normal && stack == rest
                else if |rest| < StackSize then o == Normal && stack == rest + [host(datum, old(stack)[k..])]
                else o == Raised("Stack overflow") && stack == rest
    {
      var args;
      o, args := Pops(arity);
      if o != Normal || !pushes {
        return;
      }
      o := Push(host(datum, args));
    }

    // The instructions the executor handles itself

    /** `<<literal>>`: push the next cell of the sequence and skip it. */
    method ExecLiteral() returns (o: Outcome)
      requires data.Length == DataSize
      modifies this`stack, this`pc
      ensures o != OutOfFuel
      ensures o == Normal <==> |old(stack)| < StackSize && CellOk(old(pc))
      ensures o == Normal ==> stack == old(stack) + [CellAt(data[..], old(pc))] && pc == old(pc) + CellSize
      ensures o != Normal ==> stack == old(stack) && pc == old(pc)
    {
      if |stack| >= StackSize {
        return Raised("Stack overflow");
      }
      var v;
      o, v := FetchCell(pc);
      if o == Normal {
        stack := stack + [v];
        pc := pc + CellSize;
      }
    }

    /** `<<branch>>`: pop `z`; the next cell is a target offset, which
        becomes `pc` when `z` is zero and is skipped otherwise. The target
        is checked before the output pops `z`, so an error leaves `z` on
        the stack (and `pc` past the offset cell). */
    method ExecBranch() returns (o: Outcome)
      requires data.Length == DataSize
      modifies this`stack, this`pc
      ensures o != OutOfFuel && |stack| <= |old(stack)|
      ensures o == Normal <==>
                |old(stack)| >= 1 && CellOk(old(pc))
                && (old(stack)[|old(stack)| - 1] == 0 ==> CellOk(CellAt(data[..], old(pc))))
      ensures o == Normal ==>
                var n := |old(stack)|;
                stack == old(stack)[..n - 1]
                && pc == if old(stack)[n - 1] == 0 then CellAt(data[..], old(pc)) as int else old(pc) + CellSize
      ensures o != Normal ==> stack == old(stack)
      ensures o != Normal && |old(stack)| >= 1 && CellOk(old(pc)) ==>
                o == Raised(OutOfRange(CellAt(data[..], old(pc)))) && pc == old(pc) + CellSize
    {
      var n := |stack|;
      if n == 0 {
        return Raised("Stack underflow");
      }
      var y;
      o, y := FetchCell(pc);
      if o != Normal {
        return;
      }
      pc := pc + CellSize;
      if stack[n - 1] == 0 {
        if !CellOk(y) {
          return Raised(OutOfRange(y));
        }
        pc := y;
      }
      stack := stack[..n - 1];
    }

    /** A GRAB instruction: pop `count` cells one at a time into the
        locals, the top into `locals[0]`. An underflow stops it part way. */
    method ExecGrab(locals: array<i32>, count: nat) returns (o: Outcome)
      requires locals.Length == MaxLocals && 1 <= count <= MaxLocals
      modifies this`stack, locals
      ensures o != OutOfFuel && |stack| <= |old(stack)|
      ensures o == Normal <==> count <= |old(stack)|
      ensures o == Normal ==>
                var n := |old(stack)|;
                stack == old(stack)[..n - count]
                && forall j | 0 <= j < count :: locals[j] == old(stack)[n - 1 - j]
      ensures o != Normal ==> o == Raised("Stack underflow") && stack == []
      ensures forall j | count <= j < MaxLocals :: locals[j] == old(locals[j])
    {
      var i := 0;
      while i < count
        invariant 0 <= i <= count && i <= |old(stack)|
        invariant stack == old(stack)[..|old(stack)| - i]
        invariant forall j | 0 <= j < i :: locals[j] == old(stack)[|old(stack)| - 1 - j]
        invariant forall j | i <= j < MaxLocals :: locals[j] == old(locals[j])
      {
        var args;
        o, args := Pops(1);
        if o != Normal {
          return;
        }
        locals[i] := args[0];
        i := i + 1;
      }
      return Normal;
    }

    /** `;will`: make the newest word a `<<will>>` word and store the
        offset of the rest of this sequence in the cell at its datum. */
    method ExecWill() returns (o: Outcome)
      requires Valid() && 0 <= pc <= DataSize
      modifies this`words, data
      ensures o != OutOfFuel
      ensures NamesOf(words) == NamesOf(old(words))
      ensures var last := |old(words)| - 1;
              var w := old(words)[last];
              words == old(words)[last := Word(w.name, DoWill, w.datum)]
              && (o == Normal <==> CellOk(w.datum))
              && (o == Normal ==> data[..] == StoreCell(old(data[..]), w.datum, pc))
    {
      var last := |words| - 1;
      var w := Word(words[last].name, DoWill, words[last].datum);
      RewriteKeepsNames(words, last, w);
      words := words[last := w];
      o := StoreCellAt(w.datum, pc);
    }

    // The executor

    /** What running code never changes: the string area, the input, the
        mode and the dictionary's names; the output only grows. */
    twostate predicate Runs()
      reads this
    {
      Valid() && there == old(there) && input == old(input) && mode == old(mode)
      && NamesOf(words) == NamesOf(old(words)) && old(output) <= output
    }

    /** One turn of `do_sequence`'s fetch loop: fetch the cell at `pc`,
        advance past it and act on it. `stop` reports EXIT and `;will`,
        which end the sequence. */
    method Step(locals: array<i32>, fuel: nat) returns (o: Outcome, stop: bool)
      requires Valid() && locals.Length == MaxLocals && fuel >= 1
      modifies this, data, locals
      ensures Runs()
      ensures !CellOk(old(pc)) ==> o == Raised(OutOfRange(old(pc))) && stack == old(stack) && pc == old(pc)
      ensures CellOk(old(pc)) ==>
                var u := ToUnsigned(CellAt(old(data[..]), old(pc)));
                (u == Exit ==> o == Normal && stop && stack == old(stack) && pc == old(pc) + CellSize)
                && (Local0 <= u < Local0 + MaxLocals ==>
                      !stop && pc == old(pc) + CellSize
                      && (o == Normal <==> |old(stack)| < StackSize)
                      && (o == Normal ==> stack == old(stack) + [old(locals[u - Local0])]))
                && (Grab1 <= u < Grab1 + MaxLocals ==>
                      !stop && pc == old(pc) + CellSize
                      && (o == Normal <==> u - Grab1 + 1 <= |old(stack)|)
                      && (o == Normal ==>
                            stack == old(stack)[..|old(stack)| - (u - Grab1 + 1)]
                            && forall j | 0 <= j <= u - Grab1 :: locals[j] == old(stack)[|old(stack)| - 1 - j]))
                && (u == Will ==>
                      stop && var last := |old(words)| - 1;
                      words == old(words)[last := Word(old(words)[last].name, DoWill, old(words)[last].datum)])
                && (|old(words)| <= u ==>
                      o == Raised("Invoked an undefined word, #" + Decimal(CellAt(old(data[..]), old(pc)))))
      decreases fuel, 1
    {
      stop := false;
      var word;
      o, word := FetchCell(pc);
      if o != Normal {
        return;
      }
      pc := pc + CellSize;
      var u := ToUnsigned(word);
      if u == Exit {
        stop := true;
      } else if Local0 <= u < Local0 + MaxLocals {
        o := Push(locals[u - Local0]);
      } else if Grab1 <= u < Grab1 + MaxLocals {
        o := ExecGrab(locals, u - Grab1 + 1);
      } else if u == Will {
        o := ExecWill();
        stop := true;
      } else if u < |words| {
        o := Call(u, fuel);
      } else {
        o := Raised("Invoked an undefined word, #" + Decimal(word));
      }
    }

    /** A call from inside a sequence. A call to a sequence word whose next
        cell is EXIT is a tail call: `pc` moves to the callee's body and no
        nested invocation is opened. Any other word is invoked. */
    method Call(u: int, fuel: nat) returns (o: Outcome)
      requires Valid() && 0 <= u < |words| && fuel >= 1
      modifies this, data
      ensures Runs()
      ensures var w := old(words)[u];
              w.action == Sequence && CellOk(old(pc)) && CellAt(old(data[..]), old(pc)) == Exit ==>
                (o == Normal <==> CellOk(w.datum))
                && (o == Normal ==> pc == w.datum as int)
                && stack == old(stack) && words == old(words) && data[..] == old(data[..])
                && here == old(here) && output == old(output)
      decreases fuel, 0
    {
      var w := words[u];
      if w.action == Sequence {
        var next;
        o, next := FetchCell(pc);
        if o != Normal {
          return;
        }
        if next == Exit {
          if !CellOk(w.datum) {
            return Raised(OutOfRange(w.datum));
          }
          pc := w.datum;
          return Normal;
        }
      }
      o := Invoke(u, fuel - 1);
    }

    /** `do_sequence`: run the compiled cells from `start` until EXIT or
        `;will`, with fresh (unset) locals; `pc` is the caller's again
        afterwards, whether the sequence ends or raises. The step budget
        `fuel` stands in for the C code's unbounded loop. */
    method DoSequence(start: i32, fuel: nat) returns (o: Outcome)
      requires Valid()
      modifies this, data
      ensures Runs()
      ensures pc == old(pc)
      ensures !CellOk(start) ==> o == Raised(OutOfRange(start)) && stack == old(stack) && words == old(words)
      decreases fuel, 2
    {
      if !CellOk(start) {
        return Raised(OutOfRange(start));
      }
      var callerPc := pc;
      pc := start;
      var locals := new i32[MaxLocals];
      var steps := fuel;
      o := OutOfFuel;
      while steps > 0
        invariant Runs() && steps <= fuel
        invariant o == OutOfFuel
        decreases steps
      {
        steps := steps - 1;
        var stop;
        o, stop := Step(locals, fuel);
        if o != Normal || stop {
          break;
        }
        o := OutOfFuel;
      }
      pc := callerPc;
    }

    /** `ts_do_will`: the datum of a `<<will>>` word holds the offset of
        its behaviour; push the address of the cell after the datum's and
        run that behaviour. */
    method DoWillWord(datum: i32, fuel: nat) returns (o: Outcome)
      requires Valid()
      modifies this, data
      ensures Runs()
      ensures !CellOk(datum) ==> o == Raised(OutOfRange(datum)) && stack == old(stack)
      decreases fuel, 3
    {
      var start;
      o, start := FetchCell(datum);
      if o != Normal {
        return;
      }
      o := Push(Wrap(datum as int + CellSize));
      if o != Normal {
        return;
      }
      o := DoSequence(start, fuel);
    }

    /** Call the action of word `u`. The C code never reaches a word with
        no action here (the special words are handled by the fetch loop
        and refused by `ts_run`); the model raises an error for it. */
    method Invoke(u: int, fuel: nat) returns (o: Outcome)
      requires Valid() && 0 <= u < |words|
      modifies this, data
      ensures Runs()
      decreases fuel, 4
    {
      var w := words[u];
      match w.action
      case Special => o := Raised("Invoked a word with no action, #" + Decimal(u));
      case Sequence => o := DoSequence(w.datum, fuel);
      case DoWill => o := DoWillWord(w.datum, fuel);
      case DoLiteral => o := ExecLiteral();
      case DoBranch => o := ExecBranch();
      case PushDatum => o := Push(w.datum);
      case Primitive(p) => o := ExecPrim(p, fuel);
      case Native(arity, pushes) => o := ExecNative(w.datum, arity, pushes);
    }

    /** The primitive words. `execute` re-enters the executor through
        `ts_run`. */
    /** The primitives that only work on the stack, the data space and the output. */
    method ExecDataPrim(p: Prim) returns (o: Outcome)
      requires Valid()
      requires p.Binary2? || p.Unary1? || p.MakeLiteral? || p.Comma? || p.Allot? || p.MakeConstant?
            || p.Fetch? || p.Store? || p.CFetch? || p.CStore? || p.PlusStore? || p.Emit? || p.Print?
      modifies this, data
      ensures Runs()
      ensures o != OutOfFuel
    {
      if p.Binary2? { o := ExecBinary(p.bop); }
      else if p.Unary1? { o := ExecUnary(p.uop); }
      else if p.MakeLiteral? { o := ExecMakeLiteral(); }
      else if p.Comma? { o := ExecComma(); }
      else if p.Allot? { o := ExecAllot(); }
      else if p.MakeConstant? { o := ExecMakeConstant(); }
      else if p.Fetch? { o := ExecFetch(); }
      else if p.Store? { o := ExecStore(); }
      else if p.CFetch? { o := ExecCFetch(); }
      else if p.CStore? { o := ExecCStore(); }
      else if p.PlusStore? { o := ExecPlusStore(); }
      else if p.Emit? { o := ExecEmit(); }
      else { o := ExecPrint(); }
    }

    method ExecPrim(p: Prim, fuel: nat) returns (o: Outcome)
      requires Valid()
      modifies this, data
      ensures Runs()
      decreases fuel, 3
    {
      match p
      case Here => o := Push(here);
      case AlignBang => here := CellAlign(here); o := Normal;
      case Execute =>
        var args;
        o, args := Pops(1);
        if o == Normal {
          if fuel == 0 {
            o := OutOfFuel;
          } else {
            o := Run(args[0], fuel - 1);
          }
        }
      case StartTracing => tracing := true; o := Normal;
      case StopTracing => tracing := false; o := Normal;
      case ClearStack => stack := []; o := Normal;
      case PrintStack => ExecPrintStack(); o := Normal;
      case RaiseError => o := ExecRaiseError();
      case _ => o := ExecDataPrim(p);
    }

    /** `ts_run`: execute word `word` from outside a sequence. The special
        words make sense only inside one and are refused. */
    method Run(word: i32, fuel: nat) returns (o: Outcome)
      requires Valid()
      modifies this, data
      ensures Runs()
      ensures ToUnsigned(word) <= LastSpecialPrim ==>
                o == Raised("execute of a sequential-only word: " + Decimal(word)) && stack == old(stack)
      ensures |old(words)| <= ToUnsigned(word) ==>
                o == Raised("Invoked an undefined word, #" + Decimal(word)) && stack == old(stack)
      decreases fuel, 5
    {
      var u := ToUnsigned(word);
      if u <= LastSpecialPrim {
        return Raised("execute of a sequential-only word: " + Decimal(word));
      }
      if u < |words| {
        o := Invoke(u, fuel);
      } else {
        o := Raised("Invoked an undefined word, #" + Decimal(word));
      }
    }

    // The text interpreter

    /** `get_token`: skip blanks, then scan one token from the input into
        a buffer of `size` characters. */
    method GetToken(size: nat) returns (r: TokenResult)
      requires size >= 3
      modifies this`input
      ensures r == Scan(old(input), size).result
      ensures input == old(input)[Scan(old(input), size).used..]
      ensures r != NoToken ==> |input| < |old(input)|
    {
      var s := input;
      var p := 0;
      while p < |s| && Blank(s[p])
        invariant 0 <= p <= |s|
        invariant SkipBlanks(s, p) == SkipBlanks(s, 0)
        decreases |s| - p
      {
        p := p + 1;
      }
      var l: Lexed;
      if p == |s| {
        l := Lexed(NoToken, p);
      } else {
        var c := s[p];
        if Code(c) == Eof {
          l := Lexed(NoToken, p + 1);
        } else if Code(c) == 36 {
          if p + 1 == |s| {
            l := Lexed(BadToken("Unterminated character constant: " + [c]), p + 1);
          } else if Code(s[p + 1]) == Eof {
            l := Lexed(BadToken("Unterminated character constant: " + [c]), p + 2);
          } else {
            l := Lexed(Token([c, s[p + 1]]), p + 2);
          }
        } else if Single(c) {
          l := Lexed(Token([c]), p + 1);
        } else if Code(c) == 34 || Code(c) == 96 {
          l := ReadString(s, p, size);
        } else {
          l := ReadWord(s, p, size);
        }
      }
      input := s[l.used..];
      r := l.result;
    }

    /** `skip_line`: consume through the next newline or EOF. */
    method SkipLine()
      modifies this`input
      ensures input == old(input)[LineEnd(old(input), 0)..]
    {
      var s := input;
      var p := 0;
      while p < |s| && Code(s[p]) != Eof && Code(s[p]) != 10
        invariant 0 <= p <= |s|
        invariant LineEnd(s, p) == LineEnd(s, 0)
        decreases |s| - p
      {
        p := p + 1;
      }
      if p < |s| {
        p := p + 1;
      }
      input := s[p..];
    }

    /** `discard_input`: drop what the input source has buffered, which
        for a line-reading source is the rest of the current line. */
    method DiscardInput()
      modifies this`input
      ensures input == old(input)[BufferEnd(old(input), 0)..]
    {
      var s := input;
      var p := 0;
      while p < |s| && s[p] != '\n'
        invariant 0 <= p <= |s|
        invariant BufferEnd(s, p) == BufferEnd(s, 0)
        decreases |s| - p
      {
        p := p + 1;
      }
      if p < |s| {
        p := p + 1;
      }
      input := s[p..];
    }

    /** `prompt`: the mode, a space, and the stack height when not empty. */
    method Prompt()
      modifies this`output
      ensures output == old(output) + PromptText(mode, |stack|)
    {
      output := output + [mode, ' '];
      if 0 < |stack| {
        output := output + "<" + Decimal(|stack|) + "> ";
      }
    }

    /** Push `v` in interpret mode `(`, compile a literal for it otherwise. */
    method PushOrCompile(v: i32) returns (o: Outcome)
      requires Valid()
      modifies this`stack, this`here, data
      ensures Valid() && o != OutOfFuel
      ensures old(mode) == '(' ==>
                here == old(here) && data[..] == old(data[..])
                && (o == Normal <==> |old(stack)| < StackSize)
                && (o == Normal ==> stack == old(stack) + [v])
      ensures old(mode) != '(' ==>
                stack == old(stack)
                && (o == Normal ==>
                      var a := CellAlign(old(here));
                      0 <= a && a + 2 * CellSize <= there
                      && here == a + 2 * CellSize && CellAt(data[..], a) == Literal && CellAt(data[..], a + CellSize) == v
                      && data[a + 2 * CellSize..] == old(data[a + 2 * CellSize..]))
    {
      if mode == '(' {
        o := Push(v);
      } else {
        o := CompilePush(v);
      }
    }

    /** `dispatch`: act on one token as its first character and the mode
        direct. */
    method Dispatch(token: string, fuel: nat) returns (o: Outcome)
      requires Valid()
      modifies this, data
      ensures Valid() && |input| <= |old(input)|
      ensures Code(Lead(token)) == 92 ==>
                o == Normal && input == old(input)[LineEnd(old(input), 0)..] && mode == old(mode)
                && stack == old(stack) && words == old(words)
      ensures IsModeChar(Lead(token)) ==>
                o == Normal && mode == Code(Lead(token)) as char
                && stack == old(stack) && words == old(words) && input == old(input)
      ensures Code(Lead(token)) == 36 && old(mode) == '(' ==>
                (o == Normal <==> |old(stack)| < StackSize)
                && (o == Normal ==> stack == old(stack) + [if |token| > 1 then Code(token[1]) else 0])
      decreases fuel, 7
    {
      var c := Lead(token);
      if Code(c) == 92 {
        SkipLine();
        o := Normal;
      } else if IsModeChar(c) {
        mode := Code(c) as char;
        o := Normal;
      } else if Code(c) == 36 {
        o := PushOrCompile(if |token| > 1 then Code(token[1]) else 0);
      } else if Code(c) == 34 || Code(c) == 96 {
        o := DispatchString(token[1..]);
      } else {
        o := DispatchWord(token, fuel);
      }
    }

    /** A string literal: copy its text into the string area, then push
        its index (or compile a literal for it). */
    method DispatchString(body: string) returns (o: Outcome)
      requires Valid()
      modifies this`there, this`stack, this`here, data
      ensures Valid() && o != OutOfFuel
      ensures o == Normal ==>
                var t := CText(body);
                there == old(there) - (|t| + 1) && CString(data[..], there) == ToBytes(t)
                && (old(mode) == '(' ==> stack == old(stack) + [there])
    {
      var index;
      o, index := CompileString(body);
      if o == Normal {
        TextHasNoNul(body);
        StringRoundTrip(old(data[..]), there, ToBytes(CText(body)));
        ghost var copied := data[..];
        o := PushOrCompile(index);
        if o == Normal && mode != '(' {
          CompilePushKeepsStrings(copied, data[..], old(here), there);
          CStringOfSuffix(copied, data[..], there);
        }
      }
    }

    /** The default case of `dispatch`: a name or a numeral. */
    method DispatchWord(token: string, fuel: nat) returns (o: Outcome)
      requires Valid()
      modifies this, data
      ensures Valid() && input == old(input)
      ensures var found := FindLast(old(words), token);
              (old(mode) == '\'' ==>
                 (found == NotFound ==> o == Raised(token + " ?\n") && stack == old(stack))
                 && (found != NotFound ==>
                       (o == Normal <==> |old(stack)| < StackSize)
                       && (o == Normal ==> stack == old(stack) + [found])))
              && (old(mode) == ':' ==>
                    (o == Normal <==> |old(words)| < DictionarySize)
                    && (o == Normal ==> words == old(words) + [Word(token, Sequence, old(here))] && mode == ')'))
              && (old(mode) != '\'' && old(mode) != ':' && old(mode) != '(' && found != NotFound ==>
                    var a := CellAlign(old(here));
                    (o == Normal <==> CompileFits(old(here), there))
                    && (o == Normal ==> data[..] == StoreCell(old(data[..]), a, found) && here == a + CellSize))
              && (old(mode) != '\'' && old(mode) != ':' && found == NotFound ==>
                    (ParseNumber(token, floatBits) == None ==> o == Raised(token + " ?\n"))
                    && (ParseNumber(token, floatBits).Some? && old(mode) == '(' ==>
                          (o == Normal <==> |old(stack)| < StackSize)
                          && (o == Normal ==> stack == old(stack) + [ParseNumber(token, floatBits).value])))
      decreases fuel, 6
    {
      if mode == '\'' {
        var word := Lookup(token);
        if word == NotFound {
          return Raised(token + " ?\n");
        }
        o := Push(word);
      } else if mode == ':' {
        o := Install(token, Sequence, here);
        if o == Normal {
          mode := ')';
        }
      } else {
        var word := Lookup(token);
        if word != NotFound {
          if mode == '(' {
            o := Run(word, fuel);
          } else {
            o := Compile(word);
          }
        } else {
          var value := ParseNumber(token, floatBits);
          if value.None? {
            return Raised(token + " ?\n");
          }
          o := PushOrCompile(value.value);
        }
      }
    }

    /** `ts_loading_loop`: from interpret mode, dispatch every token but
        newlines until the input ends; the first error ends the loop. */
    method LoadingLoop(fuel: nat) returns (o: Outcome)
      requires Valid()
      modifies this, data
      ensures Valid() && |input| <= |old(input)|
    {
      mode := '(';
      while true
        invariant Valid() && |input| <= |old(input)|
        decreases |input|
      {
        var t := GetToken(TokenSize);
        match t
        case NoToken => return Normal;
        case BadToken(m) => return Raised(m);
        case Token(text) =>
          if text[0] != '\n' {
            o := Dispatch(text, fuel);
            if o != Normal {
              return;
            }
          }
      }
    }

    /** `ts_load_string`: load the text `text` as the input. */
    method LoadString(text: string, fuel: nat) returns (o: Outcome)
      requires Valid()
      modifies this, data
      ensures Valid() && |input| <= |text|
    {
      input := text;
      o := LoadingLoop(fuel);
    }

    /** What `ts_interactive_loop` does with one token: a newline prompts
        again; any other token is dispatched, and an error (a bad token
        or a failed dispatch) drops the rest of the buffered line and
        prompts again. Only running out of the step budget is passed on. */
    method Respond(t: TokenResult, fuel: nat) returns (o: Outcome)
      requires Valid() && !t.NoToken?
      modifies this, data
      ensures Valid() && |input| <= |old(input)|
      ensures o == Normal || o == OutOfFuel
      ensures t.BadToken? ==>
                o == Normal && input == old(input)[BufferEnd(old(input), 0)..]
                && output == old(output) + PromptText(mode, |stack|)
      ensures t.Token? && Lead(t.text) == '\n' ==>
                o == Normal && input == old(input) && output == old(output) + PromptText(mode, |stack|)
    {
      o := Normal;
      match t
      case BadToken(m) =>
        DiscardInput();
        Prompt();
      case Token(text) =>
        if Lead(text) == '\n' {
          Prompt();
        } else {
          o := Dispatch(text, fuel);
          if o == OutOfFuel {
            return;
          }
          if o != Normal {
            DiscardInput();
            Prompt();
            o := Normal;
          }
        }
    }

    /** `ts_interactive_loop`: prompt, then respond to tokens until the
        input ends, and finish the last line. Only running out of the
        step budget ends the loop early. */
    method InteractiveLoop(fuel: nat) returns (o: Outcome)
      requires Valid()
      modifies this, data
      ensures Valid()
      ensures o == Normal || o == OutOfFuel
      ensures o == Normal ==> |output| > 0 && output[|output| - 1] == '\n'
    {
      mode := '(';
      Prompt();
      while true
        invariant Valid()
        decreases |input|
      {
        var t := GetToken(TokenSize);
        if t.NoToken? {
          break;
        }
        o := Respond(t, fuel);
        if o == OutOfFuel {
          return;
        }
      }
      output := output + "\n";
      o := Normal;
    }

    /** `ts_install_standard_words`: install the safe primitives in order. */
    method InstallStandardWords() returns (o: Outcome)
      requires Valid()
      modifies this`words
      ensures Valid()
      ensures o == Normal <==> |old(words)| + |StandardWords()| <= DictionarySize
      ensures o == Normal ==> words == old(words) + StandardWords()
      ensures o != Normal ==> o == Raised("Too many words")
    {
      o := InstallAll(StandardWords());
    }

    /** Install `all` in order, stopping at the first refusal. */
    method InstallAll(all: seq<Word>) returns (o: Outcome)
      requires Valid()
      modifies this`words
      ensures Valid()
      ensures o == Normal <==> |old(words)| + |all| <= DictionarySize
      ensures o == Normal ==> words == old(words) + all
      ensures o != Normal ==> o == Raised("Too many words")
    {
      var i := 0;
      while i < |all|
        invariant 0 <= i <= |all|
        invariant words == old(words) + all[..i]
        invariant Valid()
      {
        o := Install(all[i].name, all[i].action, all[i].datum);
        if o != Normal {
          return;
        }
        assert all[..i + 1] == all[..i] + [all[i]];
        i := i + 1;
      }
      assert all[..i] == all;
      return Normal;
    }

    /** A string literal opened by `s[k]`, read as `get_token`'s loop
        does: append, then read, until the closing delimiter. */
    method ReadString(s: string, k: nat, size: nat) returns (r: Lexed)
      requires k < |s| && size >= 3
      ensures r == ScanString(s, k, size)
    {
      var delim := s[k];
      var buf: string := [];
      var ch := delim;
      var p := k + 1;
      while true
        invariant k + 1 <= p <= |s| && p == k + |buf| + 1 && |buf| <= size - 1
        invariant buf == s[k..p - 1] && ch == s[p - 1]
        invariant StringEnd(s, k + 1, delim) == StringEnd(s, p, delim)
        decreases |s| - p
      {
        if |buf| == size - 1 {
          return Lexed(BadToken("Token too long: " + buf + "..."), p);
        }
        buf := buf + [ch];
        assert buf == s[k..p];
        if p == |s| {
          return Lexed(BadToken("Unterminated string constant: " + buf), p);
        }
        ch := s[p];
        p := p + 1;
        if Code(ch) == Eof {
          return Lexed(BadToken("Unterminated string constant: " + buf), p);
        }
        if Code(ch) == Code(delim) {
          return Lexed(Token(buf), p);
        }
      }
    }

    /** A plain token starting at `s[k]`, read as `get_token`'s loop does:
        append, peek, and consume unless the peeked character stops it. */
    method ReadWord(s: string, k: nat, size: nat) returns (r: Lexed)
      requires k < |s| && size >= 3
      ensures r == ScanWord(s, k, size)
    {
      var buf: string := [];
      var ch := s[k];
      var p := k + 1;
      while true
        invariant k + 1 <= p <= |s| && p == k + |buf| + 1 && |buf| <= size - 1
        invariant buf == s[k..p - 1] && ch == s[p - 1]
        invariant WordEnd(s, k + 1) == WordEnd(s, p)
        decreases |s| - p
      {
        if |buf| == size - 1 {
          return Lexed(BadToken("Token too long: " + buf + "..."), p);
        }
        buf := buf + [ch];
        assert buf == s[k..p];
        if p == |s| || StopsWord(s[p]) {
          return Lexed(Token(buf), p);
        }
        ch := s[p];
        p := p + 1;
        if Code(ch) == Eof {
          return Lexed(Token(buf), p);
        }
      }
    }
  }

  /** Two successive compiles: the literal marker and then its value. */
  lemma {:induction false} CompilesFollow(d0: seq<Byte>, d1: seq<Byte>, d2: seq<Byte>, a: int, c: i32)
    requires |d0| == DataSize && 0 <= a && a + 2 * CellSize <= DataSize
    requires d1 == StoreCell(d0, a, Literal)
    requires d2 == StoreCell(d1, a + CellSize, c)
    ensures CellAt(d2, a) == Literal && CellAt(d2, a + CellSize) == c
    ensures d2[..a] == d0[..a] && d2[a + 2 * CellSize..] == d0[a + 2 * CellSize..]
  {
    FetchAfterStore(d0, a, Literal);
    FetchAfterStoreElsewhere(d1, a + CellSize, c, a);
    FetchAfterStore(d1, a + CellSize, c);
  }
}
