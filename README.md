# tusdl in Dafny

tusdl is a small Forth-like language, tusl, bound to an SDL screen. It comes with a set of grid simulations and image generators written in C and driven from tusl scripts. This project models the integer core of that system and proves what the C code promises:

- **The tusl virtual machine** (tusl.c). This covers:
  - the data stack;
  - the byte arena, where compiled cells grow up from `here` and strings grow down from `there`;
  - the dictionary of named words, searched newest first;
  - the executor that runs compiled sequences, with `<<literal>>`, `<<branch>>`, locals and `;will` words;
  - the integer primitives, with C's 32-bit wrap-around and truncating division;
  - the tokenizer `get_token`, the number reader `parse_number` and the decimal printer;
  - the `dispatch` text interpreter with its `(`, `)`, `:` and `'` modes, and the loading and interactive loops.

  The VM is a class whose methods change its fields in place. Errors, which the C code raises with `longjmp`, are an explicit `Outcome`.
- **The screen** (tusdl.h). This is the 1024×768 grid of 32-bit pixels plus an 8-bit plane, and packed RGB colours.
- **The simulation helpers** (sim.h, sim.c):
  - torus moves;
  - neighbour searches;
  - the `FOR_ALL_TURTLES` iteration, which visits the even list positions and then the odd ones;
  - the random empty-patch search.
- **The cellular automata** (casdl.c): cell toggling, munching squares, Conway's Life on a torus updated in place row by row, the Margolus block rule (proved reversible), and the palette effects.
- **Termites and Wa-Tor** (termite.c, wator.c). These are the in-place move rules over the grid arrays. Termite moves are proved to conserve termites and sand.
- **Turtle genomes** (turtles.c): the active-range and nesting-stack bookkeeping of `hatch[` and `]`, random genes, mutation, copying, and the printed form of a gene.
- **The image evolver** (evo.c):
  - the hash-consed node table, in which no two nodes are equal and equal meanings mean the same node;
  - the symbolic compiler onto a circular six-slot stack;
  - counting reachable nodes;
  - the weighted instruction choice;
  - randomizing, mutating and copying programs;
  - the thumbnail-cache flags.

Random numbers, clocks, files, the terminal and SDL are not modelled as effects. Each random draw the C code makes is a parameter, usually a stream `rand: nat -> u32` read in the order the code draws. The C functions that native words call are a parameter `host`. The floating-point number reader is a parameter `floatBits`.

Each C file maps to one Dafny module:

| C source | module | file |
|---|---|---|
| C integer behaviour | `Cells` | cells.dfy |
| tusdl.h | `Screen` | screen.dfy |
| sim.h, sim.c | `Sim` | sim.dfy |
| casdl.c | `Casdl` | casdl.dfy |
| termite.c | `Termite` | termite.dfy |
| wator.c | `Wator` | wator.dfy |
| turtles.c | `Turtles` | turtles.dfy |
| evo.c, node table | `EvoNodes` | evo_nodes.dfy |
| evo.c, compiler and toolbox | `EvoCompile` | evo_compile.dfy |
| evo.c, programs and cache | `EvoGenomes` | evo_genomes.dfy |
| tusl.c, primitives | `TuslPrims` | tusl_prims.dfy |
| tusl.c, data space | `TuslSpace` | tusl_space.dfy |
| tusl.c, dictionary | `TuslWords` | tusl_words.dfy |
| tusl.c, tokenizer and numerals | `TuslText` | tusl_text.dfy |
| tusl.c, the VM | `Tusl` | tusl_vm.dfy |

## Model

| member | source | states |
|---|---|---|
| Cells.ToUnsigned | tusl.c:662 | the `(unsigned)` conversion: the result is the value modulo 2^32, and an in-range value is unchanged |
| Cells.ToSigned | tusl.c:662 | reading 32 bits back as `int`: same residue modulo 2^32, unchanged below 2^31, negative above |
| Cells.Wrap | tusl.c:659-661 | `int` arithmetic wraps: the result agrees with the exact value modulo 2^32 and equals it when it fits |
| Cells.SignedUnsignedRoundTrip | tusl.c:662 | converting an `int` to `unsigned` and back gives it back |
| Cells.TruncDiv | tusl.c:663 | C's `/` truncates: it agrees with Euclidean division on non-negative operands |
| Cells.TruncMod | tusl.c:664 | C's `%`: quotient times divisor plus remainder is the dividend, the remainder has the dividend's sign and is smaller than the divisor |
| TuslPrims.Flag | tusl.c:667-669 | a truth value is -1 exactly when the relation holds and 0 exactly when it fails |
| TuslPrims.Binary | tusl.c:652-675 | a two-input word fails exactly when it divides by zero, with the message "Division by 0" |
| TuslPrims.TruncDivFits | tusl.c:663 | the truncated quotient of two `int`s fits an `int` except for the minimum divided by -1 |
| TuslPrims.ComparisonsAreFlags | tusl.c:667-669 | `=`, `<`, `u<` (and `0<`, `0=`) push -1 exactly when their relation holds and 0 exactly when it fails |
| TuslPrims.DivModPair | tusl.c:663-664 | `/` and `mod` never fail on a non-zero divisor, rebuild the dividend, and the remainder has the dividend's sign |
| TuslPrims.UnsignedDivMod | tusl.c:665-666 | `u/` and `umod` divide the unsigned readings, and the remainder is below the unsigned divisor |
| TuslPrims.HalvingRoundsDown | tusl.c:663-701 | `2/` and `4/` round every cell down, and `/` by 2 agrees with `2/` except on negative odd cells, where it is one higher |
| TuslSpace.CellAlign | tusl.c:150-154 | `cell_align` rounds up to the next multiple of the cell size, when that does not overflow |
| TuslSpace.CellRoundTrip | tusl.c:134-138 | a cell written as four little-endian bytes reads back as the same `int` |
| TuslSpace.BytesRebuild | tusl.c:134-138 | the four bytes of an `unsigned` rebuild it |
| TuslSpace.DataCellAsWrittenOverruns | tusl.c:126-138 | as written, `data_cell` accepts offset `ts_data_size - 1`, whose cell runs past the data area |
| TuslSpace.CellOkIsFourBytes | tusl.c:126-131 | a cell offset is in range exactly when all four of its bytes pass `data_byte`'s check |
| TuslSpace.StoreCell | tusl.c:685 | storing a cell changes only its four bytes |
| TuslSpace.FetchAfterStore | tusl.c:683-685 | `@` after `!` at the same offset reads the stored value |
| TuslSpace.FetchAfterStoreElsewhere | tusl.c:683-685 | a store leaves every non-overlapping cell as it was |
| TuslSpace.CString | tusl.c:707-708 | the C string at an offset holds no NUL and stays inside the data area |
| TuslSpace.CStringOfSuffix | tusl.c:707-708 | the C string at an offset depends only on the bytes from there on |
| TuslSpace.CopyString | tusl.c:175 | `strcpy` into the data area writes the text and a NUL at the offset, and no other byte |
| TuslSpace.StringRoundTrip | tusl.c:168-177 | the string `compile_string` stores reads back as the same C string |
| TuslSpace.StringSuffix | tusl.c:168-177 | every suffix of a stored string reads back as a C string |
| TuslSpace.CopyStringKeepsOthers | tusl.c:168-177 | storing a string keeps every byte before and after it |
| TuslSpace.AlignedBelowEnd | tusl.c:157-165 | an aligned offset below the data size leaves room for a whole cell |
| TuslSpace.AlignHigh | tusl.c:150-154 | `cell_align` of an `int` within 3 of the maximum wraps to the minimum |
| TuslSpace.CompileAsWrittenOverwritesString | tusl.c:157-165 | as written, `compile` with `here` 4 and `there` 6 passes its check and overwrites the first string byte |
| TuslSpace.CompileFitsKeepsStrings | tusl.c:157-165 | with the corrected check, compiling a cell leaves the string area untouched |
| TuslWords.FindLast | tusl.c:397-406 | `ts_lookup` returns the last word with the name, and not-found exactly when no word has it |
| TuslWords.InstallShadows | tusl.c:410-425 | after `ts_install` the new word is the one its name finds |
| TuslWords.InstallKeepsOthers | tusl.c:410-425 | installing a word does not change what any other name finds |
| TuslWords.RewriteKeepsLookup | tusl.c:715-723 | rewriting a word's action and datum in place keeps every lookup |
| TuslWords.NamesOf | tusl.c:397-406 | the names of the dictionary, entry by entry |
| TuslWords.RewriteKeepsNames | tusl.c:715-723 | `constant` and `;will` keep the dictionary's names |
| TuslWords.SameNamesSameLookup | tusl.c:397-406 | lookup depends only on the names |
| TuslWords.SpecialWords | tusl.c:485-520 | the reserved entries fill indices 0 through `LAST_SPECIAL_PRIM` |
| TuslText.Code | tusl.c:1004 | a character as `get_char` returns it is a signed `char` |
| TuslText.SkipBlanks | tusl.c:1003-1005 | the opening loop of `get_token` stops at the end or at a character that is not white space other than newline |
| TuslText.WordEnd | tusl.c:1044-1050 | a plain token runs to a stop character, an EOF byte or the end |
| TuslText.StringEnd | tusl.c:1032-1040 | a string literal runs to its delimiter, an EOF byte or the end |
| TuslText.Scan | tusl.c:1000-1054 | `get_token` consumes no more than the input, and at least one character unless it reports end of input |
| TuslText.ScanAt | tusl.c:1009-1054 | after the opening loop, a token or error consumes at least the character it starts at |
| TuslText.ScanString | tusl.c:1025-1041 | a string literal always consumes its opening delimiter and yields a token or an error |
| TuslText.ScanWord | tusl.c:1042-1051 | a plain token always consumes its first character and yields a token or an error |
| TuslText.ScanEndOfInput | tusl.c:1009-1010 | `get_token` reports end of input exactly when the opening loop stopped at the end or at an EOF byte |
| TuslText.ScanSkipsBlanks | tusl.c:1003-1007 | a token starts at the first character the opening loop does not skip, and everything skipped is white space but newline |
| TuslText.SkippedAreBlank | tusl.c:1003-1005 | every character the opening loop passes is white space but newline |
| TuslText.CharacterToken | tusl.c:1012-1022 | `$` and the next character form a two-character token |
| TuslText.SingleToken | tusl.c:1023-1024 | newline and ``\ ' : ( )`` are one-character tokens |
| TuslText.StringToken | tusl.c:1025-1041 | a string token keeps its opening delimiter, drops the closing one, has no delimiter inside, and an unterminated one is an error |
| TuslText.StringBodyFree | tusl.c:1032-1040 | no character inside a string literal is its delimiter or an EOF byte |
| TuslText.WordToken | tusl.c:1042-1051 | a plain token is the input run up to a stop character, EOF byte or end, with no stop character inside, and fits the buffer |
| TuslText.WordBodyFree | tusl.c:1044-1050 | no character inside a plain token is a stop character or EOF byte |
| TuslText.WordTooLong | tusl.c:980-991 | "Token too long" is raised exactly when a plain token needs the buffer's last slot |
| TuslText.CText | tusl.c:1087 | what C sees of a token is its prefix before the first NUL |
| TuslText.ToBytes | tusl.c:175 | the bytes of a text are the character codes modulo 256 |
| TuslText.TextHasNoNul | tusl.c:171-175 | the bytes `strcpy` copies hold no NUL |
| TuslText.FromBytes | tusl.c:707-708 | the message `error` raises has one character per byte of the C string |
| TuslText.Digits | tusl.c:376-382 | `%d` prints decimal digits only, with no leading zero except for 0 |
| TuslText.Decimal | tusl.c:376-382 | `%d` prints at least one character |
| TuslText.DigitsRoundTrip | tusl.c:376-382 | the printed digits of `n` have the value `n` |
| TuslText.DigitsMagnitude | tusl.c:961 | printed digits read back as the same magnitude under base 0 |
| TuslText.PlainValue | tusl.c:961 | an unsigned numeral with no leading white space denotes its magnitude |
| TuslText.NegatedValue | tusl.c:961 | a minus sign before a numeral negates its value |
| TuslText.DecimalDenotes | tusl.c:961 | the `%d` form of any integer denotes it |
| TuslText.ParseNumber | tusl.c:952-978 | `parse_number` refuses the empty text |
| TuslText.PrintedNumbersParse | tusl.c:952-978 | what `.` prints, `parse_number` reads back as the same `int` |
| Tusl.StackTextGrows | tusl.c:726-737 | the `.s` text grows by one number, space-separated, per stack cell |
| Tusl.CompilePushKeepsStrings | tusl.c:525-530 | `compile_push` that fits below `there` leaves the string area untouched |
| Tusl.LineEnd | tusl.c:1057-1064 | `skip_line` stops within the input |
| Tusl.BufferEnd | tusl.c:222-229 | `discard_input` stops within the input |
| Tusl.CompilesFollow | tusl.c:525-530 | two consecutive cell stores leave `<<literal>>` and the value in place and nothing else changed |
| Tusl.VM.constructor | tusl.c:463-503 | a new VM has `here` 0, `there` at the end, an empty stack, mode `(` and just the reserved words |
| Tusl.VM.Push | tusl.c:190-196 | a push succeeds exactly when the stack has room and appends the value; otherwise "Stack overflow" |
| Tusl.VM.Pops | tusl.c:198-205 | popping `n` succeeds exactly when the stack holds `n`; the popped cells and the rest rebuild the old stack |
| Tusl.VM.FetchCell | tusl.c:683 | `@` reads the cell when the whole cell is in range, else "Data reference out of range" |
| Tusl.VM.StoreCellAt | tusl.c:685 | `!` writes the cell when the whole cell is in range, else raises and changes nothing |
| Tusl.VM.CopyInto | tusl.c:175 | the data area becomes the `strcpy` of the text at the offset |
| Tusl.VM.Lookup | tusl.c:397-406 | the backward search returns `FindLast` of the dictionary |
| Tusl.VM.Install | tusl.c:410-425 | installing appends the word when the dictionary has room, else "Too many words" and no change |
| Tusl.VM.Compile | tusl.c:157-165 | `compile` aligns `here`, fails exactly when the aligned cell does not fit below `there`, else stores the cell and advances `here` by 4 |
| Tusl.VM.CompilePush | tusl.c:525-530 | on success `<<literal>>` and the value occupy two cells from the aligned `here`, and no other byte changes |
| Tusl.VM.CompileString | tusl.c:168-177 | fails with "Out of string space" exactly when the text and NUL do not fit; else moves `there` down and copies the text there |
| Tusl.VM.ExecMakeConstant | tusl.c:713-723 | `constant` pops a value and turns the last word into a push of it, keeping the names |
| Tusl.VM.ExecBinary | tusl.c:639-675 | a two-input word replaces the top two cells by `Binary` of them; a division by zero raises "Division by 0" and leaves both inputs on the stack |
| Tusl.VM.ExecUnary | tusl.c:692-701 | a one-input word replaces the top cell by `Unary` of it |
| Tusl.VM.ExecFetch | tusl.c:683 | `@` replaces the address by the cell there, or raises a range error with the address still on the stack |
| Tusl.VM.ExecStore | tusl.c:685 | `!` pops value and address and stores the value in that cell, or raises a range error |
| Tusl.VM.ExecPlusStore | tusl.c:687 | `+!` adds the value to the cell, with wrap-around |
| Tusl.VM.ExecCFetch | tusl.c:684 | `c@` replaces the address by the byte there, or raises a range error with the address still on the stack |
| Tusl.VM.ExecCStore | tusl.c:686 | `c!` stores the low byte of the value at the address |
| Tusl.VM.ExecEmit | tusl.c:703 | `emit` pops and writes the low byte as a character |
| Tusl.VM.ExecPrint | tusl.c:704-705 | `.` pops and writes the decimal form and a space |
| Tusl.VM.ExecPrintStack | tusl.c:726-737 | `.s` writes the stack bottom to top, space-separated, then a newline, without changing it |
| Tusl.VM.ExecRaiseError | tusl.c:707-708 | `error` pops an address and raises the C string stored there, or a range error |
| Tusl.VM.ExecAllot | tusl.c:648 | `allot` adds the popped value to `here`, wrapping |
| Tusl.VM.ExecComma | tusl.c:647 | `,` pops a value and compiles it |
| Tusl.VM.ExecMakeLiteral | tusl.c:644 | `#` pops a value and compiles `<<literal>>` and it |
| Tusl.VM.ExecNative | tusl.c:746-845 | a C adapter pops its arguments and pushes the function's result when it returns one |
| Tusl.VM.ExecLiteral | tusl.c:430-436 | `<<literal>>` pushes the next cell of the sequence and steps over it |
| Tusl.VM.ExecBranch | tusl.c:438-447 | `<<branch>>` pops a flag and jumps to the next cell's target on zero, else steps over it; a bad target raises with the flag still on the stack and `pc` past the offset cell |
| Tusl.VM.ExecGrab | tusl.c:557-562 | grabbing `count` locals pops them, top first into local 0, leaving the other locals |
| Tusl.VM.ExecWill | tusl.c:563-574 | `;will` makes the last word run `<<will>>` and stores the resume address in its datum cell |
| Tusl.VM.Step | tusl.c:546-585 | one turn of `do_sequence`'s loop: `;` stops, locals push, grabs pop into locals, `;will` stops, undefined words raise |
| Tusl.VM.Call | tusl.c:575-582 | a colon word followed by `;` is a tail call that only moves `pc` |
| Tusl.VM.DoSequence | tusl.c:535-597 | a colon definition runs with `pc` restored afterwards, and a bad start address raises |
| Tusl.VM.DoWillWord | tusl.c:617-630 | a `;will` word pushes its data address and runs the stored sequence |
| Tusl.VM.Invoke | tusl.c:575-582 | invoking a word keeps `there`, the input, the mode and the names |
| Tusl.VM.ExecDataPrim | tusl.c:642-705 | the stack, data and output primitives keep `there`, the input, the mode and the names |
| Tusl.VM.ExecPrim | tusl.c:642-744 | every primitive keeps `there`, the input, the mode and the names, and only appends output |
| Tusl.VM.Run | tusl.c:599-615 | `ts_run` refuses the reserved words and undefined indices with their messages |
| Tusl.VM.GetToken | tusl.c:1000-1054 | the token method returns `Scan` of the input and consumes exactly what `Scan` uses |
| Tusl.VM.ReadString | tusl.c:1025-1041 | the string loop computes `ScanString` |
| Tusl.VM.ReadWord | tusl.c:1042-1051 | the plain-token loop computes `ScanWord` |
| Tusl.VM.SkipLine | tusl.c:1057-1064 | `skip_line` drops the input through the next newline or EOF byte |
| Tusl.VM.DiscardInput | tusl.c:222-229 | `discard_input` drops the buffered line |
| Tusl.VM.Prompt | tusl.c:1127-1140 | the prompt is the mode, a space and, when the stack is not empty, `<height> ` |
| Tusl.VM.PushOrCompile | tusl.c:1115 | in interpret mode a number is pushed; otherwise it is compiled as a literal |
| Tusl.VM.Dispatch | tusl.c:1067-1121 | `\` skips the line, a mode character sets the mode, `$` pushes the character code in interpret mode |
| Tusl.VM.DispatchString | tusl.c:1084-1090 | a string literal is stored below `there` and reads back as its text; in interpret mode its index is pushed |
| Tusl.VM.DispatchWord | tusl.c:1092-1119 | `'` pushes the word index, `:` defines a word at `here` and enters mode `)`, other modes run or compile a word or a number, unknown text raises "? " |
| Tusl.VM.LoadingLoop | tusl.c:1180-1188 | the loading loop only consumes input and keeps the VM valid |
| Tusl.VM.LoadString | tusl.c:1224-1229 | loading a string consumes only that string |
| Tusl.VM.Respond | tusl.c:1154-1172 | a bad token or a failed dispatch drops the buffered line and prompts again; a newline prompts again |
| Tusl.VM.InteractiveLoop | tusl.c:1145-1176 | the interactive loop only stops at end of input (or when the step budget runs out) and ends the output with a newline |
| Tusl.VM.InstallStandardWords | tusl.c:858-917 | the safe words are appended in order when the dictionary has room, else "Too many words" |
| Tusl.VM.InstallAll | tusl.c:858-917 | installing a list appends it exactly when it fits |
| Cells.ShiftCount | tusl.c:673-675 | the shift count the hardware uses is below 32 |
| Screen.At | tusdl.h:39-43 | `at` maps every on-grid point to an index in the grid whose remainder and quotient by the width are `x` and `y` |
| Screen.AtCovers | tusdl.h:39-43 | every grid index is `at` of exactly the point its remainder and quotient give |
| Screen.AtInjective | tusdl.h:39-43 | two on-grid points share an index exactly when they are the same point |
| Screen.Planes.constructor | tusdl.h:33-37 | both planes start zeroed and cover the whole grid |
| Screen.Planes.Get | tusdl.h:52-56 | `get` returns a 32-bit pixel |
| Screen.Planes.Put | tusdl.h:45-50 | `put` then `get` at the same point gives the colour; every other pixel is unchanged |
| Screen.Planes.Put8 | tusdl.h:58-63 | `put8` then `get8` gives the colour; every other byte is unchanged |
| Screen.MakeRgb | tusdl.h:72-79 | a packed colour fits 24 bits |
| Screen.MakeRgbComponents | tusdl.h:72-79 | unpacking the red, green and blue fields of `make_rgb` returns the components |
| Screen.ColourConstants | tusdl.h:81-88 | `red`, `green`, `blue` are the single full components, `yellow` and `white` their bitwise unions, `black` zero |
| Screen.PrimaryValues | tusdl.h:82-84 | the primary colours' values |
| Screen.MixedValues | tusdl.h:85-87 | the values of `yellow` and `white` |
| Screen.PrimaryBits | tusdl.h:82-84 | the primaries as bit patterns |
| Screen.OrOfPrimaries | tusdl.h:85-87 | the bitwise unions of the primaries |
| Sim.Move | sim.h:18-29 | `move` leaves `z` alone for a zero step, and otherwise lands on the grid at `z + dz` shifted by at most one `limit` |
| Sim.MoveIsModular | sim.h:18-29 | on the grid dimensions `move` is addition modulo the limit |
| Sim.OppositeDirections | sim.h:31-33 | directions four apart are opposite, and every direction is a unit step |
| Sim.MoveX | sim.h:35-39 | `move_x` stays on the grid |
| Sim.MoveYAsWritten | sim.h:41-45 | `move_y` as written stays on the grid |
| Sim.MoveY | sim.h:41-45 | the corrected vertical step stays on the grid |
| Sim.MoveXIsTorus | sim.h:35-39 | `move_x` is the torus step `move` |
| Sim.MoveYIsTorus | sim.h:41-45 | the corrected vertical step is the torus step `move` |
| Sim.MoveYAsWrittenFromTop | sim.h:41-45 | as written, stepping south from row 0 lands on row 255, not on the last row |
| Sim.MoveYAsWrittenElsewhere | sim.h:41-45 | away from that case the code as written agrees with the torus step |
| Sim.Move2 | sim.h:47-52 | `move2` is a grid index different from the start |
| Sim.PickGreaterUnsigned | sim.h:101-108 | the pick returns the option with the larger value, either one on a tie |
| Sim.FollowGradientUnsigned | sim.h:110-126 | the chosen heading is left, ahead or right, and its value is the largest of the three |
| Sim.Neighbor4 | sim.c:59-68 | each orthogonal neighbour is a grid index |
| Sim.Neighbors4Distinct | sim.c:59-68 | the four orthogonal neighbours are distinct cells |
| Sim.MatchingNeighborsMeaning | sim.c:59-68 | the matching list holds exactly the examined neighbours with the colour, at most one per neighbour |
| Sim.CheckNeighbor | sim.c:48-57 | `check_neighbor` appends the neighbour's index exactly when it has the colour |
| Sim.FindNeighbors4 | sim.c:59-68 | `find_neighbors4` lists the west, north, east and south neighbours with the colour, in that order |
| Sim.PickNeighbor4 | sim.h:135-144 | -1 exactly when no neighbour has the colour, otherwise a neighbour that has it |
| Sim.PatchesMeaning | sim.c:38-46 | the listed patches are exactly the cells with the value, in increasing order |
| Sim.ListPatches | sim.c:38-46 | `list_patches` writes the patches with the value, in order, and returns their count |
| Sim.VisitOrderIsPermutation | sim.h:160-174 | `FOR_ALL_TURTLES` visits each listed patch exactly once |
| Sim.EvensOddsSplit | sim.h:160-174 | the even and odd passes together cover the list |
| Sim.EvensAt | sim.h:164-168 | the first pass visits the even positions in order |
| Sim.OddsAt | sim.h:169-173 | the second pass visits the odd positions in order |
| Sim.OddsLength | sim.h:164-173 | the passes have the lengths of the even and odd positions |
| Sim.VisitOrderAt | sim.h:160-174 | each visit reads the list at the position the two passes give |
| Sim.VisitOrderOfPatches | sim.h:160-174 | the visited cells are exactly those holding the value |
| Sim.VisitOrderOfPatchesDistinct | sim.h:160-174 | no cell is visited twice |
| Sim.ForAllTurtlesOrder | sim.h:160-174 | the macro's loops visit `VisitOrder` of the patches with the value |
| Sim.PickEmptyPatch | sim.c:25-34 | the search returns the first drawn cell that is empty, and fails exactly when no draw is empty |
| Casdl.ToggleBit | casdl.c:13-17 | `^= 1` flips the low bit and keeps the others |
| Casdl.Toggle | casdl.c:13-17 | `toggle` flips the low bit of the one cell at (x, y) and changes nothing else |
| Casdl.Clip | casdl.c:19-24 | the clipping of a coordinate within one grid size of the grid is the coordinate modulo the dimension |
| Casdl.GetClipped | casdl.c:19-24 | `get_clipped` reads the cell at the wrapped coordinates |
| Casdl.PutClipped | casdl.c:26-32 | `put_clipped` writes exactly the cell at the wrapped coordinates |
| Casdl.PutThenGet | casdl.c:19-32 | `get_clipped` after `put_clipped` at the same point returns the value |
| Casdl.Sprinkle | casdl.c:34-43 | `sprinkle` sets to 1 exactly the cells the random test hits and keeps the rest |
| Casdl.XorColumn | casdl.c:45-52 | the munch row `x ^ n` stays within the width |
| Casdl.MunchStep | casdl.c:45-52 | `munch_step` writes the frame's low byte exactly into the munched cells and keeps the rest |
| Casdl.MunchOnePerColumn | casdl.c:45-52 | each column has exactly one munched cell, at row `(x ^ n)` modulo the height |
| Casdl.LifeUpdateCellIsConway | casdl.c:73-81 | the new low bit follows Conway's rule (birth on 3, survival on 2 or 3) and bit 1 keeps the old state |
| Casdl.Row | casdl.c:66-70 | `copy_row` copies row `y` of the grid |
| Casdl.LifeNext | casdl.c:115-133 | the next Life generation has the grid's size |
| Casdl.LifeCellIsConway | casdl.c:73-133 | each cell of the next generation obeys Conway's rule over its eight toroidal neighbours and remembers its old state in bit 1 |
| Casdl.LifeUpdateRow | casdl.c:83-113 | `life_update_row` writes every cell of the row from the three input rows, wrapping at both ends, and nothing else |
| Casdl.RowCellInterior | casdl.c:97-108 | an interior cell is updated from its own three-by-three block |
| Casdl.RowCellEnds | casdl.c:90-112 | the first and last cells wrap to the other end of the row |
| Casdl.LifeNextAt | casdl.c:115-133 | the next generation's cell at (x, y) is that cell's update |
| Casdl.RowUnchanged | casdl.c:122-131 | rows not yet written still hold the old generation |
| Casdl.RowStep | casdl.c:125-132 | one turn of `life_step`'s loop finishes one more row and leaves the later rows as they were |
| Casdl.AllRowsDone | casdl.c:115-133 | once every row is done the grid is the next generation |
| Casdl.CellDone | casdl.c:115-133 | each cell of a finished grid is the next generation's |
| Casdl.LifeRowStep | casdl.c:125-132 | one loop turn saves the current row and updates it from the saved rows above and below |
| Casdl.LifeStep | casdl.c:115-133 | `life_step` replaces the grid by the next Life generation on the torus, despite updating in place |
| Casdl.SquareFlips | casdl.c:136-143 | a Margolus square flips exactly when 1 to 3 of its cells are set |
| Casdl.Flip | casdl.c:142 | `1 - v` inverts a 0/1 cell |
| Casdl.Succ | casdl.c:150-158 | the next column or row wraps at the edge |
| Casdl.BlockStart | casdl.c:145-175 | each cell belongs to the block starting at its parity, or the previous one (wrapping) |
| Casdl.BlocksAreDisjoint | casdl.c:145-175 | both cells of a block map to the same block start |
| Casdl.SquareRow | casdl.c:145-159 | the row after updating the squares of a pair of rows |
| Casdl.MargolusNext | casdl.c:161-175 | the next Margolus generation has the grid's size |
| Casdl.MargolusIsReversible | casdl.c:136-175 | on a 0/1 grid, two Margolus steps with the same parity give the grid back |
| Casdl.ReversibleAt | casdl.c:136-175 | each cell comes back after two steps with the same parity |
| Casdl.ReversibleCell | casdl.c:136-175 | the cell at (x, y) comes back after two steps |
| Casdl.NextCell | casdl.c:136-175 | a cell of the next generation is flipped exactly when its square flips |
| Casdl.FlipsAtAgain | casdl.c:136-143 | a square that flipped flips again on the next step with the same parity |
| Casdl.FlipsAgain | casdl.c:136-143 | flipping a square keeps its 1-to-3 count property |
| Casdl.SameSquare | casdl.c:145-175 | every cell of a square is updated from the same four cells |
| Casdl.MargolusNextRow | casdl.c:161-175 | each row of the next generation is its pair's `SquareRow` |
| Casdl.SquareRowReadsPair | casdl.c:145-159 | a pair's update depends only on its two rows |
| Casdl.UpdateSquare | casdl.c:136-143 | `margolus_update_square` inverts all four cells when 1 to 3 are set, else leaves them, and touches nothing else |
| Casdl.SquareCells | casdl.c:136-143 | the four updated cells are the square's next values |
| Casdl.ColumnsStep | casdl.c:155-158 | one turn of the column loop finishes one more square |
| Casdl.OutsideStep | casdl.c:155-158 | a square update leaves the other rows alone |
| Casdl.WrapColumns | casdl.c:150-153 | the odd-parity wrap square joins the last and first columns |
| Casdl.ColumnsDone | casdl.c:155-158 | when the column loop ends both rows hold their next values |
| Casdl.NextColumnPair | casdl.c:155 | the column loop steps by two within the row |
| Casdl.CornersDistinct | casdl.c:151-158 | the four corners of a square are distinct cells |
| Casdl.UpdateColumnPair | casdl.c:155-158 | one turn of the column loop |
| Casdl.UpdateWrapSquare | casdl.c:150-153 | the odd-parity wrap square |
| Casdl.MargolusUpdateRow | casdl.c:145-159 | `margolus_update_row` gives both rows their next values and leaves other rows alone |
| Casdl.PairStep | casdl.c:167-174 | one turn of `margolus_step`'s loop finishes one more pair of rows |
| Casdl.RowOutsidePair | casdl.c:145-159 | rows outside a pair are untouched |
| Casdl.SameRows | casdl.c:161-175 | grids with the same rows are equal |
| Casdl.NextPair | casdl.c:170 | the row loop steps by two |
| Casdl.WrapPair | casdl.c:167-168 | the odd-parity wrap pair joins the last and first rows |
| Casdl.AllPairsDone | casdl.c:161-175 | when the loop ends every row is done |
| Casdl.UpdateRowPair | casdl.c:167-174 | one turn of the row loop |
| Casdl.MargolusStep | casdl.c:161-175 | `margolus_step` replaces the grid by the next Margolus generation for the frame's parity |
| Casdl.Decay | casdl.c:201-203 | a decayed colour is never brighter and every non-zero component strictly dims |
| Casdl.DecayReachesBlack | casdl.c:194-212 | after `k` decays each component is at most its start minus `k` (so 255 decays reach black) |
| Casdl.DecayColors | casdl.c:194-212 | `decay_colors` decays every palette entry and sets the frame's entry to white |
| Casdl.WipeColors | casdl.c:180-192 | `wipe_colors` makes the whole palette black |
| Casdl.FourColors | casdl.c:214-234 | `4-colors` sets entries 0 to 3 to black, blue, green and red and keeps the rest |
| Termite.KindsDistinct | termite.c:4-9 | the four cell kinds are the colours black, three-quarter green, yellow and RGB (192, 192, 0) |
| Termite.Turn | termite.c:33 | the new heading, computed in unsigned arithmetic, stays in 0..7 and turns by at most one step either way |
| Termite.OneWriteCount | termite.c:44-47 | one cell write changes each kind's count by exactly the cell it replaced and the value it wrote |
| Termite.WritesCount | termite.c:44-47 | two writes to distinct cells change each kind's count by the replaced and written values |
| Termite.WritesConserve | termite.c:31-76 | each of the four kinds of two-cell move keeps the termite count and the sand-plus-carried count |
| Termite.EmptyhandedConserves | termite.c:31-49 | an emptyhanded move keeps the number of termites and the amount of sand, carried or lying |
| Termite.EmptyhandedFrame | termite.c:31-49 | an emptyhanded move keeps headings in 0..7 and changes no other termite's cell |
| Termite.CarryingConserves | termite.c:51-76 | a carrying move keeps the number of termites and the amount of sand, carried or lying |
| Termite.CarryingFrame | termite.c:51-76 | a carrying move keeps headings in 0..7 and changes no other non-empty cell |
| Termite.MoveCases | termite.c:31-76 | emptyhanded onto sand picks it up; onto empty it moves; onto anything else only the heading is re-drawn; carrying onto non-empty only re-draws the heading; carrying next to sand drops it behind and moves on emptyhanded, otherwise moves on carrying |
| Termite.MakeTermite | termite.c:13-18 | `make_termite` marks the cell emptyhanded with a heading in 0..7 and changes nothing else |
| Termite.EmptyhandedMove | termite.c:30-49 | `emptyhanded_move` updates grid and headings exactly as the emptyhanded move rule says |
| Termite.CarryingMove | termite.c:51-76 | `carrying_move` updates grid and headings exactly as the carrying move rule says |
| Termite.Pass | sim.h:160-174 | one `FOR_ALL_TURTLES` pass over one termite kind keeps headings valid, the termite count and the sand count |
| Termite.Tick | termite.c:78-83 | `tick` moves the emptyhanded termites, then the carrying ones, keeping headings valid, the termite count and the sand count |
| Wator.KindsDistinct | wator.c:6-11 | empty, fish and shark cells are black, green and red |
| Wator.ToShort | wator.c:18-19 | a store into a `short` keeps the value modulo 2^16 in the signed 16-bit range, and keeps values already in range |
| Wator.URem | wator.c:24 | `fast_rand () % n` with `n` converted to unsigned lies below that unsigned value, and below `n` when positive |
| Wator.MakeFish | wator.c:21-27 | `make_fish` marks the cell as a fish with a countdown in [0, fish breeding age) and changes no other cell |
| Wator.MakeShark | wator.c:29-36 | `make_shark` marks the cell as a shark with health in [0, starve time) and countdown in [0, shark breeding age), and changes no other cell |
| Wator.BearFish | wator.c:50-54 | `bear_fish` re-arms a countdown to the fish breeding age minus 0 to 4 and changes only that |
| Wator.BearShark | wator.c:56-61 | `bear_shark` restores full health and re-arms a countdown to the shark breeding age minus 0 to 4 |
| Wator.MoveFishCases | wator.c:63-81 | a fish always counts down; with no empty neighbour nothing moves; with a positive countdown it moves and keeps the countdown; otherwise the parent stays re-armed and the child gets the full breeding age |
| Wator.MoveSharkCases | wator.c:83-113 | a shark whose health drops below zero dies; it prefers a fish neighbour (restoring its health), then an empty one, else stays; the mover takes its health and either vacates the old cell or breeds there |
| Wator.MovesKeepCritters | wator.c:63-113 | fish and shark moves write only empty, fish and shark cells |
| Wator.SettleShark | wator.c:97-111 | the shark's move into a chosen neighbour, as the shark move rule says |
| Wator.MakeFishAt | wator.c:21-27 | `make_fish` on the arrays writes the fish cell and its truncated countdown and nothing else |
| Wator.MakeSharkAt | wator.c:29-36 | `make_shark` on the arrays matches the shark creation rule |
| Wator.MoveFish | wator.c:63-81 | `move_fish` follows the fish move rule for the empty neighbour `pick_neighbor4` chooses |
| Wator.FirstNeighbor | sim.h:135-144 | some neighbour choice (or none) always exists for the move rules |
| Wator.MoveShark | wator.c:83-113 | `move_shark` follows the shark move rule for the fish neighbour, or else the empty neighbour, that `pick_neighbor4` chooses |
| Wator.Tick | wator.c:115-120 | `tick` moves every fish, then every shark, and the sea still holds only empty, fish and shark cells |
| Turtles.Choose | turtles.c:288-292 | `choose (n)` lies in [0, n) |
| Turtles.RandomInstruc | turtles.c:296-303 | `random_instruc` names an entry of `op_types` and has an argument in [-100, 99] |
| Turtles.RandomInstrucCovers | turtles.c:296-303 | every gene with a valid op and an argument in [-100, 99] is produced by some pair of draws |
| Turtles.WriteInstrucShape | turtles.c:381-387 | `write_instruc` prints a space and the op's name last, prints the argument (a digit or `-` after the first space) exactly when the op takes one argument, and that argument text reads back as the argument |
| Turtles.HatchCount | turtles.c:159-161 | the number hatched is the active count, clamped so that the total never exceeds `max_turtles` |
| Turtles.HatchNext | turtles.c:156-170 | `hatch_start` keeps `0 <= first_active_turtle <= num_turtles <= max_turtles` |
| Turtles.EndNext | turtles.c:174-179 | `end` keeps `0 <= first_active_turtle <= num_turtles <= max_turtles` |
| Turtles.EndUndoesHatch | turtles.c:156-179 | `end` after `hatch_start` restores the old start of the active range and the old stack |
| Turtles.HatchDoubles | turtles.c:156-170 | the hatched copies become the active range, starting at the old end, with as many turtles as before when there is room |
| Turtles.PushGuardOverflows | turtles.c:43-45 | with the stack full, the guard `sp < max_nesting` still pushes, making the stack one deeper than `stack` holds |
| Turtles.World.constructor | turtles.c:35-45 | the initial state has one turtle at the origin, no saved ranges and valid genomes |
| Turtles.World.Reset | turtles.c:47-60 | `reset` leaves one active turtle at index 0, at the origin, white, with an empty stack |
| Turtles.World.HatchStart | turtles.c:152-170 | `hatch_start` moves the state by the hatch rule and copies the active turtles into the new slots, leaving the others alone |
| Turtles.World.SaveActive | turtles.c:163-164 | the push saves the start of the active range when the stack has room and otherwise changes nothing |
| Turtles.World.End | turtles.c:172-179 | `end` moves the state by the end rule |
| Turtles.World.Randomize | turtles.c:305-312 | `randomize` dies exactly on a bad coordinate; otherwise it replaces genome g by fresh random genes and leaves the others |
| Turtles.World.Mutate | turtles.c:314-328 | `mutate` dies exactly on a bad coordinate; otherwise it replaces genome g by its mutation and leaves the others |
| Turtles.World.Copy | turtles.c:348-354 | `copy` dies exactly when either coordinate is bad; otherwise genome g becomes equal to genome h and the others are unchanged |
| Turtles.World.Evaluate | turtles.c:330-346 | `evaluate` dies exactly on a bad coordinate; otherwise the active-range state is the fold of `hatch[` and `]` over the genome from `reset` |
| Turtles.RandomGenome | turtles.c:305-312 | a random genome has `genome_length` valid genes |
| Turtles.Genome | turtles.c:279 | genome g has `genome_length` genes |
| Turtles.WithGenome | turtles.c:279 | replacing one genome keeps the size of the genome array |
| Turtles.WithGenomeMeaning | turtles.c:279 | replacing genome g changes genome g only |
| Turtles.SpliceBlock | turtles.c:305-312 | writing a block over genome g is replacing genome g, and keeps the genes valid |
| Turtles.GenomesApart | turtles.c:279 | two genomes are the same or do not overlap |
| Turtles.CopiedGenome | turtles.c:348-354 | the `memcpy` of genome h onto genome g makes genome g equal genome h |
| Turtles.MovedBlock | turtles.c:166-167 | a `memcpy` of n entries changes only the destination range, to the source entries |
| Turtles.MoveRange | turtles.c:353 | `memcpy` of non-overlapping ranges copies the source onto the destination |
| Turtles.CopyRange | turtles.c:166-167 | `memcpy` of non-overlapping ranges changes only the destination, to the old source values |
| Turtles.MutateFrom | turtles.c:320-328 | mutation keeps the genome's length |
| Turtles.MutateFromKeeps | turtles.c:320-328 | mutation keeps every gene valid and the genes already passed unchanged |
| Turtles.MutateFromNoHits | turtles.c:325-327 | when no draw falls below the mutation rate the genome is unchanged |
| Turtles.RunNesting | turtles.c:339-344 | running the genes keeps the active-range invariant |
| Turtles.HatchEndPair | turtles.c:156-179 | a `hatch[` immediately followed by `]` leaves the active range starting where it did |
| EvoNodes.XorBits | evo.c:451 | the bitwise exclusive or of two n-bit numbers is an n-bit number |
| EvoNodes.XorTwice | evo.c:451 | exclusive or with the same value twice gives the number back |
| EvoNodes.RotateRoundTrip | evo.c:451 | rotating a 32-bit hash right undoes the left rotation `(h1 << 1) \| (h1 >> 31)` |
| EvoNodes.CombineRoundTrip | evo.c:446-452 | `combine (h1, h2)` loses nothing about `h1`: it can be undone, and two different `h1` never combine with the same `h2` to the same hash |
| EvoNodes.UncombineCombine | evo.c:446-452 | undoing `combine` with the same `h2` gives `h1` back |
| EvoNodes.ArgHashes | evo.c:460-461 | one argument hash per argument the node uses |
| EvoNodes.BucketOf | evo.c:491 | `hashcode % node_table_size` is a bucket index |
| EvoNodes.ArgHashesFrame | evo.c:460-461 | adding nodes to the table does not change an existing node's argument hashes |
| EvoNodes.GraphGrows | evo.c:517-536 | adding a node whose arguments exist and whose hash code is right keeps every node's hash code right |
| EvoNodes.HashCheckRedundant | evo.c:470-484 | for nodes whose hash codes were computed by `node_hash`, the hash comparison in `node_equal` is redundant: equal iff same kind, opcode, arguments and (where used) constant and step |
| EvoNodes.NodeTable.constructor | evo.c:427 | the table starts with every bucket empty |
| EvoNodes.NodeTable.FreeAll | evo.c:429-444 | `free_all_nodes` empties every bucket |
| EvoNodes.NodeTable.NodeHash | evo.c:454-467 | `node_hash` folds in kind and opcode, then each argument's hash, then the constant's bits only for `constant` nodes and the step only for `mix` and `sprinkle` |
| EvoNodes.NodeTable.Uniquify | evo.c:486-502 | `uniquify` returns a node equal to the given one; if one was present the table is unchanged, otherwise the node is added at the head of bucket `hashcode % node_table_size`; the table never holds two equal nodes |
| EvoNodes.NodeTable.Lookup | evo.c:491-498 | the bucket scan finds a node exactly when an equal node is in the table, and what it finds is equal |
| EvoNodes.NodeTable.NotPresent | evo.c:491-498 | scanning only the node's own bucket suffices to rule it out of the whole table |
| EvoNodes.NodeTable.Add | evo.c:499-501 | a new node goes at the end of the arena and the head of its bucket, keeping the table valid |
| EvoNodes.NodeTable.MakeNode | evo.c:515-536 | `make_node` returns a node with the given fields, shared if one existed, whose meaning is the operation applied to the meanings of its arguments; existing nodes are kept |
| EvoNodes.FiledGrows | evo.c:499-501 | pushing a node on its bucket keeps every node filed under its hash code |
| EvoNodes.UniqueGrows | evo.c:488-502 | adding a node with no equal in the table keeps the table free of duplicates |
| EvoNodes.Adjoin | evo.c:686-698 | `adjoin` reports 1 exactly when the node is among the first `num_seen` entries; otherwise it appends it and counts one more |
| EvoNodes.CountUnvisited | evo.c:700-719 | `count_unvisited_nodes` appends each newly reached node once, returns how many it appended, and afterwards every node reachable from the argument is in `seen`; every entry stays within a given set that holds everything the argument reaches |
| EvoNodes.CountArguments | evo.c:715-717 | the loop over a node's arguments adds everything reachable from each argument |
| EvoNodes.CountArgument | evo.c:716 | one argument's count adds everything reachable from that argument |
| EvoNodes.Appended | evo.c:696 | appending a node not yet seen keeps `seen` free of duplicates |
| EvoNodes.ChildStep | evo.c:715-717 | once an argument's reachable nodes are seen, one more argument is covered |
| EvoNodes.KeptPrefix | evo.c:696 | appending to `seen` keeps what was there |
| EvoNodes.Released | evo.c:715-718 | a node whose arguments are all seen is no longer pending |
| EvoNodes.ClosedHoldsReach | evo.c:703-705 | with nothing pending, a seen node's reachable nodes are all seen |
| EvoNodes.CountReachable | evo.c:721-734 | `count_reachable_nodes` returns the number of distinct nodes reachable from r, g and b, needing only that those nodes fit in `seen`'s five slots per instruction, however many other nodes the table holds |
| EvoNodes.SeenIsReachable | evo.c:721-734 | the nodes seen after the three counts are exactly those reachable from r, g and b |
| EvoNodes.DistinctCard | evo.c:727 | a `seen` array without duplicates holds as many nodes as its length |
| EvoNodes.Pigeonhole | evo.c:722-727 | a duplicate-free `seen` whose entries lie in a set of nodes and miss one of them is shorter than that set, so the one missed still fits |
| EvoNodes.ArgTerms | evo.c:517-536 | a node has one argument meaning per argument used |
| EvoNodes.DenoteGrows | evo.c:517-536 | adding nodes does not change an existing node's meaning |
| EvoNodes.ArgTermsGrow | evo.c:517-536 | adding nodes does not change the meanings of a node's arguments |
| EvoNodes.DenoteMade | evo.c:517-536 | the node returned for given fields means the operation applied to its arguments' meanings |
| EvoNodes.SameArity | evo.c:413-414 | nodes with the same argument pointers use the same number of arguments |
| EvoNodes.DenoteInjective | evo.c:486-502 | in a hash-consed table two nodes with the same meaning are the same node, so equal sub-expressions are shared |
| EvoCompile.MakeConstant | evo.c:904-911 | `make_constant` is a `constant` instruction carrying the value, popping nothing and pushing one |
| EvoCompile.ToolboxOk | evo.c:913-957 | the toolbox holds 32 instructions, each runnable on the symbolic stack with frequency 1 |
| EvoCompile.PrefixOfOnes | evo.c:959-968 | with every frequency 1, the running total over the first i tools is i |
| EvoCompile.PrefixGrows | evo.c:975-978 | with positive frequencies the running total strictly grows |
| EvoCompile.FrequencySum | evo.c:959-968 | `frequency_sum` is the total of all the toolbox frequencies |
| EvoCompile.PickAsWritten | evo.c:971-985 | the loop as written stops at the first tool whose running total reaches `k` (`k <= sum`) |
| EvoCompile.Pick | evo.c:971-985 | the corrected loop stops at the first tool whose running total exceeds `k` |
| EvoCompile.PickIsWeighted | evo.c:971-985 | the corrected pick returns tool i exactly when `k` falls in that tool's share of the total, so each tool is drawn in proportion to its frequency |
| EvoCompile.PickOfOnes | evo.c:971-985 | with frequencies all 1 the corrected pick of `k` is tool `k` |
| EvoCompile.PickAsWrittenOfOnes | evo.c:971-985 | with frequencies all 1 the loop as written picks tool 0 for `k` 0 and tool `k - 1` otherwise |
| EvoCompile.PickAsWrittenSkews | evo.c:971-985 | as written, draws 0 and 1 both give `constant` and no draw gives the last tool, `rotcolor`; the corrected pick gives tool `k` |
| EvoCompile.WeightedRandomInstruc | evo.c:970-985 | `weighted_random_instruc` returns the toolbox entry the weighted pick selects for the draw |
| EvoCompile.RandomChoice | evo.c:987-995 | a random instruction taken from runnable tools is runnable |
| EvoCompile.RandomInstruc | evo.c:987-995 | `random_instruc` is the weighted pick, with a fresh constant value only for a `constant` |
| EvoCompile.ToolboxDraw | evo.c:971-985 | over the toolbox the corrected pick of draw `k` is tool `k mod 32` |
| EvoCompile.ToolboxDrawable | evo.c:913-985 | the toolbox has a positive total and runnable entries |
| EvoCompile.Bump | evo.c:776-792 | `bump` gives a slot index in [0, `stack_limit`) |
| EvoCompile.BumpIsMod | evo.c:776-792 | `bump (ptr, inc)` is `ptr + inc` modulo `stack_limit` |
| EvoCompile.BumpInverse | evo.c:776-792 | bumping back by the same amount returns to the slot |
| EvoCompile.ModAdd | evo.c:866-885 | moving by a wrapped amount is moving by the amount, modulo the stack size |
| EvoCompile.Cleared | evo.c:761-774 | `clear_stack` leaves a well-formed stack at slot 0 holding the zero constant everywhere |
| EvoCompile.Put | evo.c:856-858 | writing a slot keeps the stack well formed |
| EvoCompile.Step | evo.c:863-886 | one instruction keeps the stack well formed |
| EvoCompile.StepIsPut | evo.c:863-886 | `pretend` drops the pointer by `pops`, replaces that slot by the instruction's effect on the top three slots, and raises the pointer by `pushes` |
| EvoCompile.StepTouchesOneSlot | evo.c:856-858 | an instruction changes only the slot at the popped pointer |
| EvoCompile.FirstEnd | evo.c:895 | the compile loop stops at the first `end`, and no earlier instruction is `end` |
| EvoCompile.Run | evo.c:895-896 | running a prefix of instructions keeps the stack well formed |
| EvoCompile.RunStep | evo.c:895-896 | running n + 1 instructions is running n then stepping the next |
| EvoCompile.StepPointer | evo.c:863-886 | each instruction moves the stack pointer by `pushes - pops` modulo `stack_limit` |
| EvoCompile.Compiled | evo.c:888-899 | the compiled stack is well formed |
| EvoCompile.MeaningGrows | evo.c:517-536 | adding nodes does not change what a slot's nodes mean |
| EvoCompile.SymbolicStack.View | evo.c:755-759 | the slots of the three node stacks read as expressions form a well-formed stack |
| EvoCompile.SymbolicStack.Abs | evo.c:755-759 | the abstract stack's pointer is `stack_ptr` |
| EvoCompile.SymbolicStack.constructor | evo.c:755-774 | a new symbolic stack is cleared |
| EvoCompile.SymbolicStack.ClearStack | evo.c:761-774 | `clear_stack` sets every r, g and b slot to the one zero-constant node and `stack_ptr` to 0, keeping every node already made |
| EvoCompile.SymbolicStack.Frame | evo.c:868-882 | the tos, nos and pos triples are the slots at the pointer and one and two above it |
| EvoCompile.SymbolicStack.Pretend | evo.c:800-886 | `pretend` moves the stack exactly by the instruction's step: `color` takes r from tos, g from nos and b from pos, `rotcolor` rotates tos's components, `hwb` yields the node and its two parts, others replace tos from their arguments |
| EvoCompile.SymbolicStack.Apply | evo.c:800-885 | the new nodes replace the popped slot and the pointer moves by `pushes` |
| EvoCompile.SymbolicStack.Push | evo.c:856-858 | writing a triple of nodes into a slot changes that slot only and makes no nodes |
| EvoCompile.SymbolicStack.Advance | evo.c:895-896 | one turn of the compile loop steps the abstract stack by the next instruction |
| EvoCompile.SymbolicStack.Compile | evo.c:888-899 | `compile` leaves the stack that running the program up to its first `end` from a cleared stack gives, with the pointer bumped back by one |
| EvoCompile.SymbolicStack.RunAll | evo.c:895-896 | the compile loop runs every instruction before the first `end` |
| EvoCompile.SymbolicStack.StepBack | evo.c:898 | the final bump moves the pointer back by one and changes no slot |
| EvoCompile.MakeLeaf | evo.c:810-813 | a leaf node means the operation with no arguments |
| EvoCompile.Make1 | evo.c:814-818 | a one-argument node means the operation on its argument's meaning |
| EvoCompile.Make2 | evo.c:819-828 | a two-argument node means the operation on its arguments' meanings |
| EvoCompile.Map1 | evo.c:814-818 | a one-argument operation on each component gives the lifted meaning |
| EvoCompile.Map2 | evo.c:819-828 | a two-argument operation on each component gives the lifted meaning |
| EvoCompile.MakeHwb | evo.c:839-843 | `hwb` makes one node from the three components and its two part nodes |
| EvoCompile.Results | evo.c:800-859 | `really_pretend` makes the new top triple whose meaning is the instruction's effect |
| EvoCompile.ArgTerms1 | evo.c:815-817 | a one-argument node's argument meanings |
| EvoCompile.ArgTerms2 | evo.c:820-827 | a two-argument node's argument meanings |
| EvoCompile.ArgTerms3 | evo.c:840 | a three-argument node's argument meanings |
| EvoCompile.PutTerm | evo.c:856-858 | writing a node pointer into a slot array changes that slot's meaning only |
| EvoCompile.Terms | evo.c:757-759 | one meaning per slot |
| EvoCompile.TermsGrow | evo.c:517-536 | adding nodes does not change the slots' meanings |
| EvoCompile.TermsUpdate | evo.c:856-858 | writing one slot changes only that slot's meaning |
| EvoCompile.ZeroSlots | evo.c:768-773 | slots all pointing at the zero node all mean zero |
| EvoGenomes.Dimensions | evo.c:53-64 | the screen holds a whole number of thumbnails across and down, each a whole number of tiles |
| EvoGenomes.Choose | evo.c:161-167 | `choose (n)` lies in [0, n) |
| EvoGenomes.RandomFrom | evo.c:987-995 | `random_instruc` yields a runnable instruction and uses one draw, or two for a constant |
| EvoGenomes.PointMutation | evo.c:1007-1015 | `point_mutation` replaces a non-constant by a fresh random instruction, nudges a constant or replaces it, and keeps runnable instructions runnable |
| EvoGenomes.GenomeCompiles | evo.c:888-899 | a well-formed program has an `end` before its last slot ends, so `compile` stops inside the program |
| EvoGenomes.RandomizeFrom | evo.c:997-1005 | randomizing keeps the program's length |
| EvoGenomes.RandomizeFromKeepsPrefix | evo.c:1002-1003 | the randomizing loop leaves the instructions before its start alone |
| EvoGenomes.RandomizeFromLast | evo.c:1004 | `randomize` writes `end` at index `length - 1` |
| EvoGenomes.RandomizeFromDraws | evo.c:1002-1003 | every instruction before the last is a fresh runnable one |
| EvoGenomes.RandomizedCompiles | evo.c:997-1005 | a randomized program is well formed and compiles up to its last slot |
| EvoGenomes.MutateFrom | evo.c:1017-1025 | mutation keeps the program's length |
| EvoGenomes.MutateFromKeepsPrefix | evo.c:1022-1024 | the mutation loop leaves the instructions before its start alone |
| EvoGenomes.MutateFromKeepsLast | evo.c:1022 | `mutate` never touches index `length - 1` |
| EvoGenomes.MutateFromGenes | evo.c:1017-1025 | mutation keeps every instruction before the last runnable |
| EvoGenomes.MutatedStaysOk | evo.c:1017-1025 | a mutated well-formed program is well formed |
| EvoGenomes.MutateFromNoHits | evo.c:1023 | when no draw falls below the mutation rate the program is unchanged |
| EvoGenomes.CopyGridSquare | evo.c:1089-1101 | `copy_grid_square` copies exactly the thumbnail's pixels from source to destination |
| EvoGenomes.Population.Program | evo.c:1127 | each program has `program_length` instructions |
| EvoGenomes.Population.constructor | evo.c:1086-1127 | the program array starts all zero (`end`) and no cache flag is set |
| EvoGenomes.Population.ProgramOk | evo.c:1125-1127 | every stored program is well formed |
| EvoGenomes.Population.RandomizeStep | evo.c:1002-1003 | one turn of the randomizing loop, changing only that program |
| EvoGenomes.Population.Randomize | evo.c:997-1005 | `randomize` replaces the program by a random one and keeps the others |
| EvoGenomes.Population.PointMutate | evo.c:1007-1015 | `point_mutation` changes exactly the one instruction |
| EvoGenomes.Population.MutateStep | evo.c:1022-1024 | one turn of the mutation loop, changing only that program |
| EvoGenomes.Population.MutateLoop | evo.c:1017-1025 | the mutation loop replaces the program by its mutation |
| EvoGenomes.Population.Mutate | evo.c:1017-1025 | `mutate` replaces the program by its mutation, keeps it well formed and keeps the others |
| EvoGenomes.Population.InvalidateCache | evo.c:1116-1120 | `invalidate_cache` clears exactly one flag |
| EvoGenomes.Population.Populate | evo.c:1139-1146 | `populate` dies exactly on bad coordinates; otherwise it randomizes that program and clears only its cache flag |
| EvoGenomes.Population.Sample | evo.c:1148-1155 | `sample` dies exactly on bad coordinates; otherwise it mutates that program and clears only its cache flag |
| EvoGenomes.Population.Copy | evo.c:1157-1167 | `copy` dies exactly when either coordinate pair is bad; otherwise the target program becomes the source program, other programs are kept, and only the target's flag is cleared |
| EvoGenomes.Population.UpdateCache | evo.c:1109-1114 | `update_cache` copies the thumbnail into the cache and sets its flag only |
| EvoGenomes.Population.Generate | evo.c:1189-1209 | `generate` dies exactly on bad coordinates; otherwise the thumbnail on the screen and in the cache agree, its flag is set, and no other flag or pixel changes |

## Left out

- tusl.h is not part of this model. The VM's capacities are therefore chosen here: a data area of 16384 bytes, a stack of 256 cells, a dictionary of 1024 words and a token buffer of 1024 bytes. The stack-checking macros raise "Stack overflow" and "Stack underflow" in this model.
- File and stream input is not modelled: `ts_load`, the `load` word, `ts_load_interactive`, stream refilling and source places. The input is a string that is already buffered, and `discard_input` drops that buffer through the end of its line.
- The floating-point words and the floating-point branch of `parse_number` (tusl.c:847-856, 921-929) are left out. That branch is the parameter `floatBits`.
- The unsafe words (tusl.c:934-945) are left out: they expose raw host memory.
- The C functions behind native words (tusl.c:746-845) are the parameter `host`. Only the popping of arguments and the pushing of the result are modelled.
- The tracer's output to stderr and the "redefinition" warning of `ts_install` are left out, since they are only written to stderr. The tracer is a flag the VM keeps.
- `setjmp`/`longjmp` error handling, `escape` and the final `exit (1)` are left out. Errors return `Raised` to the caller, and state changed before the error stays.
- The executor and the loops take a `fuel` bound so that they terminate in Dafny. `OutOfFuel` has no counterpart in C.
- `parse_number` takes `long` to be 32 bits wide.
- Shifts by 32 or more are undefined in C. The model uses the count modulo 32, as x86 does.
- Tusl.VM.Invoke: the contract states only that the VM stays valid and that `there`, the input, the mode and the word names are kept. The precise effects are stated on the individual `Exec` methods.
- Tusl.VM.ExecPrim: states only the preserved frame and appended output; each primitive's own method states its effect.
- Tusl.VM.ExecDataPrim: states only the preserved frame; each primitive's own method states its effect.
- Tusl.VM.DoSequence: states only the preserved frame, that `pc` is restored, and the error for a bad start address. The result of running the body is not stated.
- Tusl.VM.DoWillWord: states only the preserved frame and the error for a bad datum address.
- Tusl.VM.Run: states only the two refusals. Running a valid word is `Invoke`.
- Tusl.VM.LoadingLoop: states only that the VM stays valid and input is only consumed.
- Tusl.VM.LoadString: states only that the VM stays valid and input is only consumed.
- Tusl.VM.InteractiveLoop: states only that it ends at end of input, or when fuel runs out, with a final newline. What happens to each token is stated by `Respond`.
- Tusl.VM.Invoke raises "Invoked a word with no action" for a reserved word. The C code never reaches such a word there.
- Tusl.VM.CompileString also refuses a `there` that would go below zero. The C check lets this through when `allot` has made `here` negative.
- sierp_step (casdl.c:55-63) is left out because it uses floating point.
- The palette's SDL calls are left out. The palette is a sequence of 256 colours.
- The `install_*_words` functions are left out. They only register C function pointers as words.
- `genesis` in termite.c and wator.c is left out. It only repeats `make_termite`, `make_fish` and `make_shark` at cells that `pick_empty_patch` returns, and all four are modelled.
- Sim.PickEmptyPatch: the C loop draws until it hits an empty cell and never stops on a full grid. The model reads a finite sequence of draws and reports failure when none of them is empty.
- `check_neighbor` (sim.c:48-57) reads the global `grid` through `get` and ignores its `array` parameter. Every caller passes `grid`, directly or through `pick_neighbor4` (termite.c:63, wator.c:67, 91, 95), so the model reads the array it is given.
- The random generator (`seed_rand`, `fast_rand`) is left out. Each draw is a parameter.
- The floating-point helpers of sim.h (`scale_color`, `diffuse8_float`, `pick_greater_double`, `follow_gradient_float`) are left out. So is `FOR_ALL_PATCHES`, which none of the modelled files uses.
- Wator.Tick: states only that the grid still holds only empty, fish and shark cells. Fish moving before sharks is the order of its two passes and is not a separate contract.
- The turtles' positions, headings and colours are floating point. So turtle movement and drawing (`forward`, `left`, `plot`, `diffuse`, `display`, `clear_tile`, `tsame`) are left out; turtles are only copied.
- Genome input and output are left out: `write_genome`, `dump_genome`, and evo.c's `read_*`/`write_*`, `save` and `open_save_file`. Only the text of one turtle gene is modelled.
- The pixel operations of evo.c are left out because they are floating-point image maths: `op_*`, `eval`, `evaluate`, `gridify`, `color_value`, the heap and `reset_cache`. A node's meaning is a term, not an image.
- EvoGenomes.Population.Generate: the pixels of a regenerated thumbnail are whatever the image maths produce. The contract states only the cache flags, the agreement of screen and cache on that thumbnail, and that other pixels are kept.
- `complexity`, `generate_big` and `same_thumbs` of evo.c are left out. They compose `compile` and `count_reachable_nodes`, which are modelled, with image comparisons that are not.
- `point_mutation` nudges a constant by a floating-point amount. That nudge is the parameter `nudge`.
- TuslPrims.Binary: `/` and `mod` of the most negative cell by -1 give the wrapped results (that cell, and 0). In C that division overflows, which C leaves undefined and which traps on x86. The model reports no error there.
- Tusl.VM.ExecLiteral: raises a range error when `pc` is outside the data area. C reads the cell at `pc` without a check (tusl.c:435), so this error is the model's addition.
- Tusl.VM.Step: raises a range error when `pc` is outside the data area, where C reads the instruction cell unchecked (tusl.c:548).
- Tusl.VM.Call: inherits that check from `Step`; C has no such error.
- Tusl.VM.ExecBranch: raises a range error when the offset cell at `pc` is outside the data area, where C reads it unchecked (tusl.c:443).
- Tusl.VM.FetchCell: follows the corrected check of the second Findings row. It refuses the offsets `DataSize - 3` to `DataSize - 1`, whose cells C's `data_cell` accepts and then reads past the end of the data area, which C leaves undefined.
- Tusl.VM.StoreCellAt: follows the same corrected check, so it refuses the same three offsets, where C writes past the end of the data area.
- Tusl.VM.Compile: follows the corrected check of the first Findings row. When the aligned `here` is below `there` but the cell would reach past it, C stores the cell over the newest string and the model raises "Out of data space". `TuslSpace.CompileAsWrittenOverwritesString` shows what C does there.
- Tusl.VM.CompilePush: compiles through `Compile`, so it has the same corrected check.
- Tusl.VM.ExecComma: compiles through `Compile`, so it has the same corrected check.
- Tusl.VM.ExecMakeLiteral: compiles through `Compile`, so it has the same corrected check.
- Tusl.VM.PushOrCompile: compiles through `Compile`, so it has the same corrected check.
- Sim.Move2: follows the corrected vertical move of the third Findings row. From row 0 in a direction with `dy` -1 it gives row 767, where C's `move2` gives row 255. Every other cell agrees with C (`Sim.MoveYAsWrittenElsewhere`).
- Sim.FollowGradientUnsigned: compares the neighbours that the corrected `Move2` gives, so on row 0 it can look at a different cell than C does.
- Termite.MoveCases: the target cell is the corrected `Move2` cell, which differs from C's on row 0.
- Termite.EmptyhandedMove: moves to the corrected `Move2` cell, which differs from C's on row 0.
- Termite.CarryingMove: moves to the corrected `Move2` cell, which differs from C's on row 0.
- Turtles.HatchNext: follows the corrected guard of the fourth Findings row. It saves a start only while fewer than 20 are saved, where C's guard lets a 21st `hatch[` write one entry past its 20-entry stack, which C leaves undefined. `Turtles.PushGuardOverflows` shows the as-written guard.
- Turtles.World.SaveActive: pushes only while `sp < MaxNesting - 1`, the corrected guard, where C pushes while `sp < max_nesting`.
- Turtles.World.HatchStart: saves the active range through `SaveActive`, so it has the corrected guard.
- Turtles.World.Evaluate: follows the active range through `HatchNext`, so it has the corrected guard.
- EvoCompile.WeightedRandomInstruc: follows the corrected choice of the fifth Findings row (`k < sum`). C stops at `k <= sum`, so its draws favour the first tool and never give the last one (`EvoCompile.PickAsWrittenSkews`).
- EvoCompile.RandomChoice: picks its tool with the corrected choice, not C's.
- EvoCompile.RandomInstruc: is the corrected weighted choice, not C's.
- EvoGenomes.RandomFrom: draws its instruction with the corrected choice.
- EvoGenomes.PointMutation: draws its replacement with the corrected choice.
- EvoGenomes.Population.RandomizeStep: draws the new slot with the corrected choice.
- EvoGenomes.Population.Randomize: draws the new program with the corrected choice.
- EvoGenomes.Population.PointMutate: draws its replacement with the corrected choice.
- EvoGenomes.Population.MutateStep: draws its replacement with the corrected choice.
- EvoGenomes.Population.MutateLoop: draws its replacements with the corrected choice.
- EvoGenomes.Population.Mutate: draws its replacements with the corrected choice.
- EvoGenomes.Population.Populate: randomizes with the corrected choice.
- EvoGenomes.Population.Sample: mutates with the corrected choice.
- EvoNodes.NodeEqual: compares a constant's 32 bits, where C compares the `float` values with `==` (evo.c:481). The two differ only on +0 and -0, which C finds equal, and on NaN, which C finds unequal to itself. The constant of a drawn instruction is likewise the raw draw, taken as the value's bits (`EvoGenomes.RandomFrom`), where C draws a `double` with `choose_double`.

## Findings

| source | as written | input that shows it | evidently intended | confidence | as-written member | corrected member |
|---|---|---|---|---|---|---|
| tusl.c:157-165 | `compile` aligns `here` and checks only `there <= here` before writing a 4-byte cell | `here` 4, `there` 6 (a one-character string just stored): the check passes and bytes 6 and 7, the start of the string, are overwritten | the whole cell must fit below `there` | not executed | TuslSpace.CompileAsWrittenOverwritesString | TuslSpace.CompileFitsKeepsStrings |
| tusl.c:125-138 | `data_cell` checks only the cell's first byte against `ts_data_size` | offset `ts_data_size - 1` passes, and the cell reads and writes three bytes past the data area | all four bytes of the cell must be inside the data area | not executed | TuslSpace.DataCellAsWrittenOverruns | TuslSpace.CellOkIsFourBytes |
| sim.h:41-45 | `move_y` computes `(y + dy[d]) % grid_height` in unsigned arithmetic | `y` 0 moving south (`dy` -1): 2^32 - 1 modulo 768 is 255, not the last row 767. `move_x` is unaffected because 1024 divides 2^32 | wrap to the opposite edge, as `move` does | not executed | Sim.MoveYAsWrittenFromTop | Sim.MoveYIsTorus |
| turtles.c:163-164 | `hatch_start` pushes when `sp < max_nesting`, then writes `stack[++sp]` | 21 nested `hatch[` with no `]`: at `sp` 19 the guard passes and `stack[20]` is written, one past the 20-entry array | push only while the stack has room | not executed | Turtles.PushGuardOverflows | Turtles.World.SaveActive |
| evo.c:971-985 | `weighted_random_instruc` stops at the first tool with `k <= sum` | with all 32 frequencies 1, draws 0 and 1 both give `constant` and no draw gives `rotcolor` | `k < sum`, so that each tool is drawn in proportion to its frequency | not executed | EvoCompile.PickAsWrittenSkews | EvoCompile.PickIsWeighted |
