/** The dictionary of the tusl virtual machine (tusl.c): an append-only
    table of named words, searched from the newest entry back, so that a
    redefinition shadows the older word without removing it. */
module TuslWords {
  import opened Cells
  import opened TuslPrims

  /** `ts_dictionary_size` (its value lives in tusl.h, which is not part of
      this model). */
  const DictionarySize: int := 1024

  /** `ts_not_found`. */
  const NotFound: int := -1

  /** The primitives that act on more than the stack. */
  datatype Prim =
    | Binary2(bop: BinOp)    // the `define2` arithmetic and logic words
    | Unary1(uop: UnOp)      // the `define1` arithmetic words
    | MakeLiteral            // `#`
    | Comma                  // `,`
    | Here                   // `here`
    | Allot                  // `allot`
    | AlignBang              // `align!`
    | MakeConstant           // `constant`
    | Fetch                  // `@`
    | Store                  // `!`
    | CFetch                 // `c@`
    | CStore                 // `c!`
    | PlusStore              // `+!`
    | Emit                   // `emit`
    | Print                  // `.`
    | Execute                // `execute`
    | StartTracing           // `start-tracing`
    | StopTracing            // `stop-tracing`
    | ClearStack             // `clear-stack`
    | PrintStack             // `.s`
    | RaiseError             // `error`

  /** What a word does when invoked: the C `ts_Action` pointer. */
  datatype Action =
    | Special                // NULL: handled inline by the executor
    | Sequence               // `do_sequence`: run the compiled cells at datum
    | DoWill                 // `ts_do_will`: a word rewritten by `;will`
    | DoLiteral              // `ts_do_literal`
    | DoBranch               // `ts_do_branch`
    | PushDatum              // `ts_do_push`: a constant
    | Primitive(prim: Prim)
    | Native(arity: nat, pushes: bool)   // a host function of `arity` cells

  datatype Word = Word(name: string, action: Action, datum: i32)

  /** `ts_lookup`: the index of the newest word named `name`, or `NotFound`. */
  function FindLast(words: seq<Word>, name: string): (r: int)
    ensures r == NotFound || (0 <= r < |words| && words[r].name == name)
    ensures r == NotFound <==> forall i | 0 <= i < |words| :: words[i].name != name
    ensures r != NotFound ==> forall i | r < i < |words| :: words[i].name != name
    decreases |words|
  {
    if |words| == 0 then NotFound
    else if words[|words| - 1].name == name then |words| - 1
    else FindLast(words[..|words| - 1], name)
  }

  /** A newly installed word shadows every older word of its name. */
  lemma {:induction false} InstallShadows(words: seq<Word>, w: Word)
    ensures FindLast(words + [w], w.name) == |words|
  {
  }

  /** Installing a word does not change what other names find. */
  lemma {:induction false} InstallKeepsOthers(words: seq<Word>, w: Word, name: string)
    requires name != w.name
    ensures FindLast(words + [w], name) == FindLast(words, name)
  {
    assert (words + [w])[..|words|] == words;
  }

  /** Rewriting a word's action and datum, as `constant` and `;will` do,
      changes no lookup. */
  lemma {:induction false} RewriteKeepsLookup(words: seq<Word>, i: int, w: Word, name: string)
    requires 0 <= i < |words| && w.name == words[i].name
    ensures FindLast(words[i := w], name) == FindLast(words, name)
  {
    assert forall k | 0 <= k < |words| :: words[i := w][k].name == words[k].name;
  }

  /** The names of a dictionary, in order. */
  function NamesOf(words: seq<Word>): (ns: seq<string>)
    ensures |ns| == |words|
    ensures forall i | 0 <= i < |words| :: ns[i] == words[i].name
  {
    seq(|words|, i requires 0 <= i < |words| => words[i].name)
  }

  /** Rewriting one word under its own name keeps the dictionary's names. */
  lemma RewriteKeepsNames(words: seq<Word>, i: int, w: Word)
    requires 0 <= i < |words| && w.name == words[i].name
    ensures NamesOf(words[i := w]) == NamesOf(words)
  {
  }

  /** Lookups depend on the names alone. */
  lemma {:induction false} SameNamesSameLookup(words: seq<Word>, others: seq<Word>, name: string)
    requires NamesOf(words) == NamesOf(others)
    ensures FindLast(words, name) == FindLast(others, name)
    decreases |words|
  {
    if |words| > 0 {
      var n := |words| - 1;
      assert words[n].name == NamesOf(words)[n] == others[n].name;
      assert NamesOf(words[..n]) == NamesOf(others[..n]) by {
        assert forall i | 0 <= i < n :: NamesOf(words[..n])[i] == NamesOf(words)[i];
        assert forall i | 0 <= i < n :: NamesOf(others[..n])[i] == NamesOf(others)[i];
      }
      SameNamesSameLookup(words[..n], others[..n], name);
    }
  }

  /** The words `ts_vm_make` installs first; the executor knows them by
      index (the enum in tusl.c). */
  const Exit: int := 0
  const Literal: int := 1
  const Branch: int := 2
  const Local0: int := 3
  const Grab1: int := 7
  const Will: int := 11
  const DoWillIndex: int := 12
  const LastSpecialPrim: int := 12
  const MaxLocals: int := 4

  function SpecialWords(): (ws: seq<Word>)
    ensures |ws| == LastSpecialPrim + 1
  {
    [ Word(";", Special, 0), Word("<<literal>>", DoLiteral, 0), Word("<<branch>>", DoBranch, 0),
      Word("z", Special, 0), Word("y", Special, 0), Word("x", Special, 0), Word("w", Special, 0),
      Word("z-", Special, 0), Word("yz-", Special, 0), Word("xyz-", Special, 0), Word("wxyz-", Special, 0),
      Word(";will", Special, 0), Word("<<will>>", DoWill, 0) ]
  }

  /** `ts_install_standard_words`, in order. */
  function StandardWords(): seq<Word> {
    [ Word("#", Primitive(MakeLiteral), 0), Word(",", Primitive(Comma), 0),
      Word("here", Primitive(Here), 0), Word("allot", Primitive(Allot), 0),
      Word("align!", Primitive(AlignBang), 0), Word("constant", Primitive(MakeConstant), 0),
      Word("+", Primitive(Binary2(Add)), 0), Word("-", Primitive(Binary2(Sub)), 0),
      Word("*", Primitive(Binary2(Mul)), 0), Word("/", Primitive(Binary2(IDiv)), 0),
      Word("mod", Primitive(Binary2(IMod)), 0), Word("u*", Primitive(Binary2(UMul)), 0),
      Word("u/", Primitive(Binary2(UDiv)), 0), Word("umod", Primitive(Binary2(UMod)), 0),
      Word("=", Primitive(Binary2(Eq)), 0), Word("<", Primitive(Binary2(Lt)), 0),
      Word("u<", Primitive(Binary2(ULt)), 0), Word("and", Primitive(Binary2(And)), 0),
      Word("or", Primitive(Binary2(Or)), 0), Word("xor", Primitive(Binary2(Xor)), 0),
      Word("<<", Primitive(Binary2(LShift)), 0), Word(">>", Primitive(Binary2(RShift)), 0),
      Word("u>>", Primitive(Binary2(URShift)), 0),
      Word("@", Primitive(Fetch), 0), Word("!", Primitive(Store), 0),
      Word("c@", Primitive(CFetch), 0), Word("c!", Primitive(CStore), 0),
      Word("+!", Primitive(PlusStore), 0),
      Word("emit", Primitive(Emit), 0), Word(".", Primitive(Print), 0),
      Word("execute", Primitive(Execute), 0), Word("start-tracing", Primitive(StartTracing), 0),
      Word("stop-tracing", Primitive(StopTracing), 0), Word("clear-stack", Primitive(ClearStack), 0),
      Word(".s", Primitive(PrintStack), 0), Word("error", Primitive(RaiseError), 0),
      Word("-1", PushDatum, -1), Word("0", PushDatum, 0), Word("1", PushDatum, 1),
      Word("0<", Primitive(Unary1(IsNegative)), 0), Word("0=", Primitive(Unary1(IsZero)), 0),
      Word("2+", Primitive(Unary1(Add2)), 0), Word("1+", Primitive(Unary1(Add1)), 0),
      Word("1-", Primitive(Unary1(Sub1)), 0), Word("2-", Primitive(Unary1(Sub2)), 0),
      Word("2*", Primitive(Unary1(Times2)), 0), Word("2/", Primitive(Unary1(Div2)), 0),
      Word("4*", Primitive(Unary1(Times4)), 0), Word("4/", Primitive(Unary1(Div4)), 0) ]
  }
}
