# DASM, modelled in Dafny

A model of the DASM macro assembler and of its companions `ftobin` and `ftohex`, with proofs of what
the C code is meant to guarantee. `dafny verify dfyconfig.toml` checks all of it.

The modules follow the program.

**Expressions (`src/exp.c`, `src/globals.c`).** `Operators`, `Lexer` and `ExprMachine` are eval as a
function on text: the switch over characters with its global `Lastwasop`, the two stacks, the
reduction loops, nested evaluation of EQM symbols. `ExprTree` gives trees a meaning and proves that
the machine computes it. `ExprText` and `ExprTheorems` go from trees to text and back: which texts are
read as the tree they were written from, exactly, and what eval returns. `EvalSafety` and `ExprFits`
bound the stacks by MAXOPS and MAXARGS and say what evaluation does to the symbol table.
`EqmNesting` treats acyclic EQM definitions, their meaning and the room they need. `OperatorLaws` says
what the operators are by laws that leave no choice, `ExprSpelling` what eval makes of texts as typed. `Evaluator` is the C code itself as a class over
`Argstack`, `Argflags`, `Oppri` and `Opdis`, each routine proved against the function.

**Passes (`src/symbols.c`, `src/ops.c`, `src/main.c`).** `AddressModes` and `Encoding` choose
addressing modes and encode instructions; `ModeLaws` says that the choice holds the operand. `Pass` is one pass over labels, instructions, DC, DS,
ALIGN, ORG, EQU and IF. `PassTheorems` proves that a pass without a Redo is consistent with the table
it ends with, `PassFixpoint` that another pass would change nothing, `PassLimits` that the conditions
of these theorems are needed. `PassLoop` says which passes the driver
makes and how it ends, `ForwardLabel` that a forward reference takes two. `Assembler` is the code in
place, up to the pass loop, and uses `Evaluator`. `DataOutput`, `InstructionOutput` and `LineLaws` say
what lines do to memory, labels and the origin.

**Control flow (`src/main.c`, `src/ops.c`).** `LineMachine` is the loop over lines with its stacks of
files and macros, conditionals and repeat loops, `Structured` the language it is meant to implement
and the proof that it does, for any meaning of ordinary lines, conditions and counts: the state they
work on is a type parameter, so a state that records lines shows their order. `LineRunner` is the code
in place, `PassLines` the proof that a pass is this machine with the assembler as its host. `Scopes`
and `Mangling` deal with local names, `MacroExit` with MEXIT, `MacroArgs` and `MacroSubst` with macro
arguments and the buffer they are put into, `SymbolHash` with the chained hash table and its free list,
`Arena` with the allocator.

**Output (`src/ops.c`, `src/ftobin.c`, `src/ftohex.c`).** `Files` models a binary file as bytes and a
position. `OutputImage` and `OutputWriter` are the three formats and the code that writes them;
`PassOutput` connects them to passes. `HunkImage` and `FtoBin`, `IntelHex` and `FtoHex` are the two
converters. `Bytes` and `Symbols` hold what is shared.

Integers are mathematical integers where the source uses `long`, and are cut to bytes, words or
unsigned ints where the source does.

## What the code does otherwise than its documentation or one might expect

- A prefix operator, a `%` literal or `*` for the program counter right after a binary operator that
  reduced is misread, because `doop` sets `Lastwasop` before its reductions reset it
  (src/exp.c:624-636). `ReadingIsExact` says exactly when this happens.
- A closing bracket does not apply prefix operators waiting in front of it; the next reduction does.
- An EQU of an unknown, referenced symbol asks for no further pass (src/ops.c:1048), and neither does
  an ORG with an unknown operand (src/ops.c:860-867). `EquatedTwice` and `UnresolvedOrg` are programs
  on which a content pass is no fixpoint.
- EQU takes back the mark that a symbol was referenced (src/ops.c:1072). In `LabelAndEquate` a content
  pass is therefore inconsistent. The symbol must be known when the pass begins, which only an option
  such as `-Dx=5` brings about (src/main.c:287-310, src/ops.c:1148-1160).
- The fill byte of ORG is not reset between passes (src/ops.c:46, 876), so two passes in a row can write
  different fillers: `FillKept` is such a program with its two files. `ResolvedPassIsFixpoint` and
  `ResolvedPassWritesTheFile` say exactly when this happens.
- The documentation gives 00 as the default fill value; the code uses 255 (src/asm.h:100).
- MEXIT inside an open conditional leaves the macro's frame on the stack (`ExitInsideIf`), and the
  caller's ENDIF is then one too many (`ExitIsCleanExactly`). Outside of the macro's conditionals and
  loops it works as the end of the macro does (`ExitIsEnd`, `RunsCall`).
- `ftobin` fills a gap where the output file stands, not at the high-water mark, and loses track of a
  hunk that ends at 64K (`TopOfMemory`). `ImagesRightExactly` gives the exact condition for both.
- `ftohex` on format 2 gives up before its end record on every input (`HunksNeverEnd`). On formats 1
  and 3 it converts only the size modulo 64K: nothing of a file of 64K (`WholeFileLost`), and the whole
  file exactly if its data is shorter (`HexOfReadsBackExactly`).
- A global name can clash with a local label: `DigitsClash` is an input, `DigitsClashExactly` says which
  names can.
- After everything was freed the arena still hands out what was left of its last block, which is no
  longer its own (`AllocAfterFree` says for which requests).

## Model

| member | source | states |
|---|---|---|
| `ExprTree.MachineComputesMeaning` | src/exp.c:532-651 | Running the operations of any grammatical expression on the two stacks, from any state whose pending operators bind less tightly, reduces to the same state with one more argument, the meaning of the tree; and it is already in that state just if no operator is left pending |
| `ExprTree.InfixComputes` | src/exp.c:620-651 | A binary operator after an expression finds exactly the meaning of that expression on the stack and only operators of lower priority below it; whether it leaves Lastwasop true depends exactly on whether it had to reduce |
| `ExprText.ReadsExactly` | src/exp.c:157-496 | On the text of a shaped expression eval takes exactly the actions of the expression if no prefix operator, % literal or * for the program counter follows a reducing operator, and otherwise its trace does not even begin with them |
| `ExprTheorems.EvalComputesMeaning` | src/exp.c:142-529 | eval of the text of a readable expression returns one operand, its meaning, and reports no error |
| `ExprTheorems.ReadingIsExact` | src/exp.c:157-496 | For every shaped expression whose symbols report no error: eval reads its text as the expression if and only if ReadsRight holds, a condition on the tree alone |
| `ExprTheorems.StarAfterReduction` | src/exp.c:624-636 | The text "1- 1- *" is read as something else than the difference it denotes: the deviation exists |
| `ExprTheorems.EncloseIsGrammatical` | src/exp.c:343-351 | Every tree whatever has a bracketed form that is grammatical and has the same meaning |
| `ExprTheorems.EvalComputesList` | src/exp.c:407-459 | A list of expressions separated by commas evaluates to the list of their meanings, with the addressing mode on the first element only |
| `ExprTheorems.EvalComputesOperand` | src/exp.c:325-459 | Each operand syntax (e, #e, e,x, e,y, (e), (e,x), (e),y) yields its addressing mode and the meaning of e |
| `ExprTheorems.EqmUnfolds` | src/exp.c:917-942 | A symbol defined by EQM stands for the meaning its text has where it is used |
| `EqmNesting.NestingEnds` | src/exp.c:917-942 | If EQM definitions are ranked acyclically, looking up a leaf needs no more nesting than its rank; more nesting changes nothing, and no error is reported |
| `EqmNesting.NestedMeaning` | src/exp.c:917-942 | An expression of acyclic EQM symbols has one meaning however deep nesting may go, and eval returns it |
| `ExprTheorems.MeaningMonotone` | src/exp.c:653-813 | Learning more about unknown leaves never changes a result that was already known |
| `ExprTheorems.KnownMeaning` | src/exp.c:653-813 | If all leaves are known the result is known and is the plain value of the expression |
| `ExprTheorems.ThreeValuedSound` | src/exp.c:653-813 | If the result is known although leaves are unknown, every assignment of values to those leaves gives that result, through the short cuts of the logical operators |
| `Operators.ApplyMonotone` | src/exp.c:653-813 | Each operator gives a refined result for refined operands |
| `Operators.ApplyKnown` | src/exp.c:653-813 | On known operands every binary operator is its arithmetic meaning and the result is known |
| `Operators.TruncatedDivision` | src/exp.c:685-716 | / and % truncate toward zero: quotient and remainder recompose and the remainder has the sign of the dividend |
| `Operators.BitwiseBits` | src/exp.c:800-813 | The bitwise operators on unbounded two's complement integers act bit by bit |
| `OperatorLaws.PrefixLaws` | src/exp.c:653-683 | What cancels - and ~, the truth table of !, and that < and > split a word: none of them by the routine's own formula |
| `OperatorLaws.SumLaws` | src/exp.c:685-734 | + and * count up from zero, - undoes + |
| `OperatorLaws.QuotientLaws` | src/exp.c:685-716 | Quotient and remainder are the only two numbers that recompose the dividend with a remainder below the divisor and of the dividend's sign; by zero the results are 0 and the dividend |
| `OperatorLaws.ShiftLaws` | src/exp.c:736-750 | << multiplies by a power of two, >> leaves less than that power |
| `OperatorLaws.ShiftBits` | src/exp.c:736-750 | Shifts move every bit by their distance, sign bits included |
| `OperatorLaws.ComparisonLaws` | src/exp.c:752-783 | Each comparison is 1 if and only if it holds, and else 0 |
| `OperatorLaws.LogicLaws` | src/exp.c:718-800 | &&, double bar and ? by their truth tables |
| `OperatorLaws.BitLaws` | src/exp.c:800-813 | The bitwise operators act bit by bit |
| `OperatorLaws.BitsDetermine` | src/exp.c:800-813 | A number is determined by its bits, so that these laws leave no choice |
| `OperatorLaws.ShortCutsExactly` | src/exp.c:782-799 | The logical operators give a known result if and only if what is unknown makes no difference, and then that result |
| `OperatorLaws.KnowledgeNeeded` | src/exp.c:653-813 | Which operands every other operator needs to know |
| `OperatorLaws.DoubtfulValues` | src/exp.c:653-813 | The value that goes with an unknown result |
| `OperatorLaws.PriorityOrders` | src/exp.c:157-370 | Eleven groups of operators from the loosest to the tightest: an operator binds tighter than another if and only if it is in a later group |
| `ExprSpelling.Positional` | src/exp.c:826-885 | One digit more shifts the others by one place, in each of the four radices |
| `ExprSpelling.DigitValues` | src/exp.c:826-885 | Digits and hexadecimal letters of either case have their values, and belong to the radices they should |
| `ExprSpelling.LiteralsAreSpelled` | src/exp.c:157-496 | Typed as they are, binary, octal, decimal and hexadecimal literals, characters and the program counter evaluate to their values |
| `ExprSpelling.PrefixesAreSpelled` | src/exp.c:157-370 | Each prefix operator by its character: what eval returns for it in front of any known operand |
| `ExprSpelling.ArithmeticIsSpelled` | src/exp.c:157-370 | Each arithmetic and bitwise operator by its characters: what eval returns for it between any two known operands |
| `ExprSpelling.LogicIsSpelled` | src/exp.c:157-370 | The same for comparisons, logic and ?: eval of 5>3 is 1 |
| `ExprSpelling.TighterFirst` | src/exp.c:157-370 | Of two operators in a row eval applies the one in the tighter group first, and of two in the same group the left one, for all operators and operands |
| `ExprSpelling.ModesAreSpelled` | src/exp.c:325-459 | The seven operand syntaxes, as typed, and their modes |
| `ExprFits.OperandIsSafe` | src/exp.c:124-131 | An operand whose expression fits MAXARGS and MAXOPS, what its EQM symbols stand for included, keeps every stack access in bounds, touches exactly the symbols it mentions and evaluates to its meaning |
| `ExprFits.ListIsSafe` | src/exp.c:124-131 | The same for lists of expressions |
| `EqmNesting.NestedUsable` | src/exp.c:124-156 | Expressions of EQM symbols that are not defined by way of themselves may be handed to eval wherever the two stacks have room for them and, at the place of each symbol, for the nested texts: all evaluations share the same arrays |
| `EqmNesting.NestedHeld` | src/exp.c:917-942 | With that room at the place of a symbol, pushsymbol may evaluate the text it stands for, however deep such texts nest |
| `Evaluator.Evaluator.StackArg` | src/exp.c:579-618 | The argument goes on top in the arrays and waiting prefix operators are applied: the stacks above the bases are those of the machine |
| `Evaluator.Evaluator.EvalTop` | src/exp.c:532-577 | The top operator is popped and applied to the top argument or arguments |
| `Evaluator.Evaluator.Reduce` | src/exp.c:635-636 | The reduction loop applies operators down to the given priority |
| `Evaluator.Evaluator.DoOp` | src/exp.c:620-651 | A prefix operator is pushed; a binary one first reduces, and ends with Lastwasop as the reduction left it |
| `Evaluator.Evaluator.CloseBracket` | src/exp.c:371-382 | A closing bracket reduces to the opening one and removes it |
| `Evaluator.Evaluator.PushSymbol` | src/exp.c:943-951 | A symbol is created if it is new, marked referenced, and its value and knowledge are stacked; unknown ones are counted |
| `Evaluator.Evaluator.PushMacro` | src/exp.c:917-942 | An EQM symbol is evaluated by a nested eval whose first result is stacked; both bases and all lower cells are as before |
| `Evaluator.Evaluator.PushNumber` | src/exp.c:815-875 | A literal stacks its value in its radix |
| `Evaluator.Evaluator.Act` | src/exp.c:157-496 | One step of the switch over the text does to arrays and globals what the machine does |
| `Evaluator.Evaluator.FinishListElement` | src/exp.c:407-457 | A comma reduces and hands over one result |
| `Evaluator.Evaluator.FinishList` | src/exp.c:498-521 | The end of the text reduces, hands over the last result and counts what is left as an error |
| `Evaluator.Evaluator.Eval` | src/exp.c:142-529 | eval is re-entrant: it returns the operands and errors of the text, restores Argi, Opi and both bases, leaves every cell below them unchanged, and changes the symbol table only by creating and marking what it looked up |
| `Evaluator.Evaluator.EnterEval` | src/exp.c:142-154 | A nested evaluation starts above the caller's cells with empty stacks of its own |
| `Evaluator.Evaluator.LeaveEval` | src/exp.c:524-528 | It ends with the caller's stacks as they were |
| `Evaluator.Evaluator.EvalLoop` | src/exp.c:157-521 | The loop over the text with its final reduction is the machine on that text |
| `Evaluator.ReadNumber` | src/exp.c:826-875 | The digit loops read the longest run of digits and its value in the radix |
| `Encoding.SpreadOpcodes` | src/main.c:1307-1320 | addhashtable moves the opcodes in place so that each allowed mode has the table entry at its rank and every other mode has 0 |
| `Encoding.RankInjective` | src/main.c:1307-1320 | No two allowed modes share a table entry |
| `Encoding.FindAllowed` | src/ops.c:196-204 | The first loop stops at the first allowed mode of the chain, or at its end |
| `Encoding.WidenMode` | src/ops.c:232-251 | The second loop widens while the operand does not fit and the next mode is allowed; it terminates |
| `Encoding.SelectMode` | src/ops.c:188-251 | The imperative mode choice is the function ChooseMode, with its error cases |
| `Encoding.FirstAllowedIsFirst` | src/ops.c:196-204 | If any mode of the chain is allowed, the one found is allowed and lies on the chain before every other allowed one |
| `Encoding.WidenIsFirstFit` | src/ops.c:232-251 | The mode arrived at is allowed and on the chain, it fits or nothing allowed follows it, and every mode passed on the way is too narrow |
| `ModeLaws.ModeFits` | src/ops.c:188-251 | The mode chosen for a known operand is allowed and of the kind that was written; every allowed mode passed on the way does not hold the value; a range error is reported if and only if the chosen one does not either, and then there is no wider allowed mode |
| `ModeLaws.OperandKept` | src/ops.c:188-333 | Without a range error the operand is what its bytes say: zero, an address byte or its sign extension, a word or its sign extension; only values beyond 16 bits lose something |
| `ModeLaws.InvalidExactly` | src/ops.c:196-227 | An operand has no mode if and only if no mode of its chain is allowed or the forced one is not |
| `ModeLaws.ChainWidens` | src/globals.c:80-95 | Widening keeps what a mode does with its operand and never holds less |
| `ModeLaws.ChainIsWhole` | src/globals.c:80-95 | And it leads to every mode of the same kind that holds more |
| `Encoding.OperandDecodes` | src/ops.c:318-333 | Decoding operand bytes in either byte order gives the value modulo its width |
| `Encoding.InstructionDecodes` | src/ops.c:252-333 | The bytes of an instruction begin with the opcode of the chosen, allowed mode and the rest decodes to the operand |
| `Encoding.BranchLands` | src/ops.c:360-399 | A branch is accepted if and only if its address, its length and its sign-extended last byte add up to the target |
| `Encoding.UnknownReservesEnough` | src/ops.c:188-251 | Where opcode widths do not shrink along the chain, an unknown operand never gets fewer bytes than any known value would |
| `InstructionOutput.InstructionWrites` | src/ops.c:152-408 | An instruction of a pass with a known operand: memory from the origin on holds the opcode of the chosen mode and then bytes that give the operand back; a branch at a known origin reaches its operand from its end if and only if that is within 8 signed bits; the origin advances by exactly those bytes and no other address changes; without a mode nothing happens |
| `InstructionOutput.InstructionAdvances` | src/ops.c:152-408 | In every state and for every operand an instruction takes the room of its mode and asks for another pass if and only if its operand is unknown, but for the first output at an unknown origin, which is lost |
| `PassTheorems.PassIsConsistent` | src/symbols.c:229-285 | A pass from any table that ends without a reason for another one is consistent: every operand an instruction, DC, DS, ALIGN or IF used was known and, with its own program counter, is worth the same in the final table, and every known EQU still holds; only symbols that are both equated and, at an unknown origin, set as a label are excluded |
| `PassTheorems.LabelsAreFinal` | src/symbols.c:229-285 | In such a pass, with all ORGs resolved, every label set at a known address has that address in the final table |
| `PassTheorems.RunKeeps` | src/symbols.c:229-285 | In such a pass a symbol that is known and referenced keeps its value to the end |
| `PassTheorems.RunGrows` | src/ops.c:169-177 | Nothing takes back a reason for another pass |
| `PassTheorems.ActGrows` | src/ops.c:695-700 | Whoever uses an unknown operand asks for another pass |
| `PassTheorems.LineIsConsistent` | src/ops.c:1048-1073 | Each executed line agrees with the final table |
| `PassFixpoint.ResolvedPassIsFixpoint` | src/main.c:601-641 | A pass that asks for no other is a fixpoint: after references and segment flags are cleared as the driver does, the next pass asks for no other and writes the same bytes at the same addresses; and its output is the same, gap fillers included, if and only if there is none, or OrgFill ended as it began, or an ORG with a fill operand is executed before the first output |
| `PassFixpoint.FillersAgreeExactly` | src/ops.c:860-876 | Piece of output by piece: its gap filler is the same in the next pass if and only if OrgFill ended as it began or the piece comes after the first ORG with a fill operand |
| `PassFixpoint.LineFollows` | src/symbols.c:326-336 | Line by line the second pass does what the first did, while its symbols already have their final values |
| `PassFixpoint.AlikeAct` | src/ops.c:634-842 | Equal operands at equal addresses give equal output |
| `PassLimits.EquatedTwice` | src/ops.c:1048-1073 | A symbol equated to an unknown value and then to another one: the first pass ends content, the next one does not. The fixpoint needs its condition on equates |
| `PassLimits.UnresolvedOrg` | src/ops.c:860-867 | ORG of a forward symbol: two passes in a row end content with bytes at different addresses. The fixpoint needs its condition on origins |
| `PassLimits.LabelAndEquate` | src/ops.c:1072-1073 | A symbol that is equated and then set as a label at an unknown origin, and was known from a -D option: the pass asks for no other, yet a condition it used does not hold of the final table. Consistency needs its condition on names |
| `PassLimits.FillKept` | src/ops.c:46-46 | A gap, and behind it an ORG with a fill operand: two passes in a row end content with the same bytes at the same addresses and different format 3 files, because OrgFill is not reset |
| `PassLoop.AssembledExactly` | src/main.c:601-641 | The pass loop ends with the source assembled if and only if some pass among those allowed asks for no other, no pass before it died, and no two in a row before it agree in Redo, Redo_why and Redo_eval |
| `PassLoop.FailuresMean` | src/main.c:601-641 | Not resolvable means two passes in a row that agree and still ask for another; too many passes means that every allowed pass asked for another; and the program died if and only if the last pass did |
| `PassLoop.OneEnd` | src/main.c:455-641 | For every source, start and limit there is one last pass and one outcome |
| `ForwardLabel.ForwardAssembles` | src/main.c:601-641 | A program that uses a label before it sets it is assembled by its second pass, wherever two passes are allowed, with the label's address as its byte |
| `Assembler.Assembler.ProgramLabel` | src/symbols.c:200-285 | A label gets the current address, and another pass is asked for if it was referenced while unknown, if the origin is unknown, or if it moved |
| `Assembler.Assembler.Generate` | src/ops.c:1525-1630 | Bytes are recorded only while no other pass is needed; the first output at an unknown origin asks for another pass and does not advance |
| `Assembler.Assembler.FillBuffer` | src/ops.c:1666-1706 | The buffer is filled with one entry over and over |
| `Assembler.Assembler.GenFill` | src/ops.c:1644-1711 | Full buffers and a rest, together the fill asked for |
| `Assembler.Assembler.EvaluateOperand` | src/ops.c:152-180 | An operand is evaluated to its mode and meaning, and the table is touched |
| `Assembler.Assembler.Evaluate` | src/exp.c:142-529 | The expressions of a directive are evaluated to their meanings, and the table is touched |
| `Assembler.Assembler.Mnemonic` | src/ops.c:152-408 | An instruction asks for another pass if its operand is unknown and emits its encoding |
| `Assembler.Assembler.EncodeInto` | src/ops.c:252-399 | The buffer gets the bytes of the encoding |
| `Assembler.Assembler.DefineConstants` | src/ops.c:634-799 | DC puts its values into the buffer in the processor's order and asks for another pass for each unknown one |
| `Assembler.Assembler.DefineSpace` | src/ops.c:802-841 | DS fills if its count is known, and asks for another pass if it is not |
| `Assembler.Assembler.AlignOrigin` | src/ops.c:930-984 | ALIGN fills up to a multiple if origin and operand are known; dividing by zero ends the program |
| `Assembler.Assembler.SetOrg` | src/ops.c:844-889 | ORG sets origin, its flag and the fill byte |
| `Assembler.Assembler.Equ` | src/ops.c:995-1076 | EQU asks for another pass if a known symbol becomes unknown or changes, sets it and clears its reference flag |
| `Assembler.Assembler.TestIf` | src/ops.c:1295-1321 | IF pushes its truth, or asks for another pass and pushes a frame neither branch of which is active |
| `Assembler.Assembler.VElse` | src/ops.c:1323-1330 | ELSE turns the frame and sets its label only where the conditional was met while assembling |
| `Assembler.Assembler.VEndif` | src/ops.c:1332-1349 | ENDIF sets its label and pops the frame |
| `Assembler.Assembler.DoLine` | src/main.c:512-541 | Conditionals are always looked at, other lines only where active |
| `Assembler.Assembler.DoPass` | src/main.c:487-541 | A pass in place is the function Run on its state |
| `Assembler.Assembler.ClearAllRefs` | src/symbols.c:326-336 | All reference flags are cleared and nothing else |
| `Assembler.Assembler.PrepareNextPass` | src/main.c:601-641 | Between passes references, flags and counters are cleared; table, origin and fill byte stay |
| `Assembler.Assembler.Assemble` | src/main.c:455-660 | The pass loop makes exactly the passes the predicate Ends says and ends with the outcome it says; the source is assembled if and only if some allowed pass resolves it, and the last pass is then consistent with the table it ended with |
| `DataOutput.EntryReads` | src/ops.c:720-799 | An entry of 1, 2 or 4 bytes holds its value modulo its width in the processor's byte order |
| `DataOutput.FillWrites` | src/ops.c:1644-1711 | A fill puts its entry into memory as often as asked for, one behind the other across buffers, and changes no other address |
| `DataOutput.DataWrites` | src/ops.c:634-799 | DC puts its entries into memory in order, each byte where it belongs, and changes no other address |
| `DataOutput.AlignReaches` | src/ops.c:967-979 | ALIGN ends on the next multiple of its operand, less than that many bytes further on; every address up to it gets the low byte of the second operand, or zero without one, and no other address changes |
| `LineLaws.SpaceFills` | src/ops.c:802-841 | DS reserves as many entries as its count says, each of which reads back as the filler modulo its width, and changes no other address; a negative count does nothing |
| `LineLaws.OrgPlaces` | src/ops.c:844-889 | Data behind an ORG is at the address its operand says, wherever the origin was, and a gap in front of it gets the filler given, or the one in force |
| `LineLaws.AlignDies` | src/ops.c:930-984 | ALIGN to zero ends the program, and to a negative number if and only if the origin is not 0 |
| `LineLaws.LookupsCount` | src/exp.c:887-954 | Evaluating an expression marks exactly the symbols it names and counts each lookup of an unknown value |
| `LineLaws.LabelMarks` | src/symbols.c:200-285 | A label is the address of its line, or behind ORG and ALIGN the one they go to, and known as far as the origin is |
| `LineLaws.EquDefines` | src/ops.c:1040-1076 | EQU gives its symbol the operand and changes no other symbol |
| `PassLines.PassRunsProgram` | src/ops.c:1295-1349 | A pass over source with structured conditionals leaves the state the structured meaning gives: of each conditional exactly the selected branch is assembled, of an unresolved one neither |
| `PassLines.RunMirrors` | src/main.c:512-541 | A pass is the line machine with the assembler as its host, line by line, even after a fatal division |
| `Structured.MachineRunsProgram` | src/main.c:487-571 | The machine on the flat text of any structured program, with any meaning of lines and conditions, and macros that may end early by MEXIT, ends after finitely many steps in the state the structured meaning gives, with no file, conditional or loop open and the macro level back at 0 |
| `Structured.RunsBlock` | src/main.c:487-541 | In any context that is active, a nested program runs as it means and leaves all stacks as they were |
| `Structured.RunsIf` | src/ops.c:1295-1349 | IF and ENDIF run the body just if the operand is known and not zero |
| `Structured.RunsIfElse` | src/ops.c:1295-1349 | IF, ELSE and ENDIF run exactly one branch, or neither if the operand is unknown; their labels are set just if it is known |
| `Structured.RunsRepeat` | src/ops.c:1351-1430 | REPEAT runs its body as often as its operand says: not at all for 0 and below, once for an unknown positive count |
| `Structured.RunsTimes` | src/ops.c:1406-1430 | Each REPEND jumps back and counts down, or ends the loop, sets its label and pops both frames |
| `Structured.RunsCall` | src/ops.c:1168-1261 | A macro call runs the body, up to its end or to a MEXIT outside its conditionals and loops, with its own arguments and names, and then restores the caller's; at MAXMACLEVEL it only sets its label |
| `Structured.RunsInclude` | src/main.c:543-563 | An included file is run in its place; its end closes nothing of the includer |
| `Structured.SkipsBlock` | src/ops.c:1295-1430 | Where nothing is active a nested program changes no state, whatever it contains |
| `LineRunner.Runner.PushIf` | src/ops.c:1713-1722 | A frame remembers whether the enclosing ones are active |
| `LineRunner.Runner.VIf` | src/ops.c:1295-1321 | v_if in place |
| `LineRunner.Runner.VElse` | src/ops.c:1323-1330 | v_else in place |
| `LineRunner.Runner.VEndif` | src/ops.c:1332-1349 | v_endif in place, with the frame of another file left alone |
| `LineRunner.Runner.VRepeat` | src/ops.c:1351-1404 | v_repeat in place: label, count, frames and the place to jump back to |
| `LineRunner.Runner.VRepend` | src/ops.c:1406-1430 | v_repend in place: jump back, or end loop and frame |
| `LineRunner.Runner.VExecmac` | src/ops.c:1168-1222 | v_execmac in place: the names of the caller are saved and new ones given out |
| `LineRunner.Runner.VEndm` | src/ops.c:1237-1261 | v_endm in place: the names and lines of the caller are taken up again |
| `LineRunner.Runner.VSubroutine` | src/ops.c:987-992 | SUBROUTINE gives out a local scope before its label is set |
| `LineRunner.Runner.Perform` | src/main.c:512-541 | The dispatch of one line, MF_IF lines first |
| `LineRunner.Runner.CloseFile` | src/main.c:543-563 | The end of a file removes its loops and conditionals and nothing else |
| `LineRunner.Runner.RunPass` | src/main.c:487-571 | The two nested loops over files and lines terminate on a structured program and leave the state its meaning gives |
| `MacroExit.ExitInsideIf` | src/ops.c:1237-1261 | MEXIT inside a conditional, called inside a conditional: ELSE turns the macro's frame off, ENDIF cannot close it, and a line outside all conditionals is skipped |
| `MacroExit.ExitIsCleanExactly` | src/ops.c:1237-1261 | MEXIT and then the caller's ENDIF, whatever lines and conditions mean: the ENDIF ends the caller's conditional if and only if that is on top of the stack at the MEXIT; if a frame of the macro is, one ENDIF too many is reported and all frames stay |
| `MacroExit.ExitIsEnd` | src/ops.c:1237-1261 | MEXIT does in one step what the end of the macro would do if its text ended there |
| `Scopes.ScopesAreFresh` | src/ops.c:987-1222 | Each SUBROUTINE and macro call gets a local index not in use at any time before in the pass, each new dollar index likewise, so that dot and dollar names there are other symbols than any before |
| `Scopes.StepsCount` | src/ops.c:987-1222 | Indices in use or saved never exceed the last one given out, over any run, malformed ones included |
| `Scopes.ScopeComesBack` | src/ops.c:1245-1257 | A program without SUBROUTINE ends in the local scope it began in, whatever macros it calls; and if none of its own lines sets a global label, in the scope of dollar labels it began in as well |
| `Scopes.DispatchDollar` | src/symbols.c:200-227 | Every line that sets a global label, of whatever kind, begins a new scope of dollar labels, the current one or, where it enters a macro, the one to come back to; no other line but macro calls and exits changes it |
| `Scopes.DollarsDiffer` | src/symbols.c:106-227 | Dollar names before and after any such line are different symbols, from any earlier time on |
| `Scopes.DollarScopesExactly` | src/symbols.c:106-227 | Along plain lines two dollar names are the same symbol if and only if they are the same name and no global label is set between them |
| `Scopes.LabelsBelong` | src/ops.c:986-1222 | The label of a SUBROUTINE belongs to the scope it begins, that of a macro call to the caller's |
| `Mangling.MangleInjective` | src/symbols.c:106-134 | Two names in two scopes are the same symbol if and only if they are the same name up to 1024 characters and, where local, in the same scope; the one exception is a global that looks like a local label: a number without leading zeros, a dot, and more |
| `Mangling.DigitsClash` | src/symbols.c:125-176 | A global name that begins with a digit can be a local label's symbol: an input |
| `Mangling.DigitsClashExactly` | src/symbols.c:106-176 | A global name is the symbol of some local label, in some scope, if and only if its first 1024 characters are a number without leading zeros, a dot, and whatever follows |
| `Mangling.DecimalReads` | src/symbols.c:125-134 | The number in a mangled name can be read back |
| `SymbolHash.Hash` | src/util.c:68-88 | The loop computes the hash, modulo the width of an unsigned int |
| `SymbolHash.SymbolTable.FindSymbol` | src/symbols.c:89-148 | Lookup returns the newest node created under the mangled name, with the value the table holds, and null if and only if the table has none |
| `SymbolHash.SymbolTable.CreateSymbol` | src/symbols.c:150-194 | A new node, unknown, is linked in front of its chain; the table changes at that name only |
| `SymbolHash.SymbolTable.AllocSymbol` | src/symbols.c:287-302 | A node comes from the free list or is new; it is zeroed and in no chain |
| `SymbolHash.SymbolTable.FreeSymbolList` | src/symbols.c:304-324 | The nodes go to the free list, last first, and the table does not change |
| `SymbolHash.SymbolTable.ClearAllSymbolRefs` | src/symbols.c:326-336 | Walking all chains clears exactly the reference flags |
| `SymbolHash.SymbolTable.SetSymbol` | src/symbols.c:283-284 | Writing to the node found changes the table at its name only |
| `OutputWriter.Output.Generate` | src/ops.c:1525-1630 | After each call the file is that of the output so far; BSS segments and calls after another pass became necessary write nothing; the first output at an unknown origin is lost; going back is fatal exactly in formats 1 and 3 |
| `OutputWriter.Output.EmitHunk` | src/ops.c:1597-1619 | In format 2 output elsewhere patches the length of the hunk so far by seeking back, and begins a new one |
| `OutputWriter.Output.EmitRaw` | src/ops.c:1572-1595 | In formats 1 and 3 a gap is filled with the current filler, and going back is refused |
| `OutputWriter.Output.CloseGenerate` | src/ops.c:1632-1642 | The finished file has every hunk's length in its place; a pass without output writes nothing in formats 1 and 3 and a stray length word in format 2; and nothing is written if another pass is due |
| `OutputWriter.FormatsAgree` | src/ops.c:1553-1642 | The three formats stand for the same memory: format 2 hunks put the output's bytes at the output's addresses, reverse origins included; formats 1 and 3 hold, if origins never go back, one image from the first address to the last |
| `OutputWriter.FormatsByExample` | src/ops.c:1525-1642 | The three files of a trace with a gap, byte by byte |
| `OutputImage.HunksReadBack` | src/ops.c:1597-1642 | A format 2 file parses exactly into its hunks if and only if origins and lengths fit 16 bits |
| `OutputImage.HunksKeepMemory` | src/ops.c:1597-1618 | Joining output into hunks keeps the byte at every address |
| `OutputImage.HunksAreMaximal` | src/ops.c:1597-1618 | Hunks are begun only where output does not go on |
| `OutputImage.BodyIsImage` | src/ops.c:1572-1595 | The body of formats 1 and 3 has at each address the byte put there, or the filler in force when the gap was crossed, and its length is end minus first origin |
| `PassOutput.GenerateInPass` | src/ops.c:1525-1630 | generate does to the file what it does to the output of the pass |
| `PassOutput.ResolvedPassWritesTheFile` | src/main.c:601-641 | A pass that asks for no other has written the file the next pass would write: always in format 2; in formats 1 and 3 if and only if OrgFill ended as it began or no gap is crossed before the first ORG that sets it |
| `PassOutput.BodiesAgree` | src/ops.c:1572-1595 | Two outputs with the same bytes at the same addresses have the same body in formats 1 and 3 if and only if their fillers agree wherever a gap is crossed |
| `FtoBin.Getwlh` | src/ftobin.c:187-196 | Two bytes, low first, or end of file |
| `FtoBin.CopyData` | src/ftobin.c:137-151 | Buffer by buffer, the data is copied to where the output stands, and the origin advances as a 16-bit word |
| `FtoBin.FillTo` | src/ftobin.c:165-182 | The gap up to an origin is filled, buffer by buffer, at the current position, and then the origin is gone to |
| `FtoBin.ConvertHunks` | src/ftobin.c:117-185 | The output of convert on a format 2 file is the image Convert of its hunks, or of those before the first one that begins too low |
| `FtoBin.ConvertRaw` | src/ftobin.c:117-149 | On formats 1 and 3 the output is what follows the header |
| `HunkImage.ImagesRightExactly` | src/ftobin.c:153-182 | For hunks that begin no lower than the first one and end by 64K: after every hunk the output is the last-write-wins image with 255 in the gaps, if and only if every hunk begins no further than ftobin takes the image to reach, or follows one that ended there at the high-water mark, or what is filled in the wrong place holds 255 already or is overwritten |
| `HunkImage.RefusedExactly` | src/ftobin.c:158-163 | A file is given up if and only if some hunk begins below the first one |
| `HunkImage.StepWrong` | src/ftobin.c:165-182 | A hunk for which that fails makes a wrong image; unless ftobin had lost track of 64K, the first address it leaves out in front of the hunk reads as zero instead of 255, or the image ends there |
| `HunkImage.SmoothExactly` | src/ftobin.c:153-182 | If only the last hunk may end at 64K the condition is: every hunk that begins beyond the high-water mark follows one that ended at it |
| `HunkImage.BinaryIsRaw` | src/ftobin.c:117-185 | For a program that does not go back and ends by 64K under the default filler, ftobin of its format 2 file is its format 3 file |
| `HunkImage.TopOfMemory` | src/ftobin.c:154-155 | A hunk that ends exactly at 64K is lost track of when another hunk follows inside it: an input |
| `IntelHex.RecordSums` | src/ftohex.c:159-172 | The bytes of every record add up to 0 modulo 256 |
| `IntelHex.RecordReads` | src/ftohex.c:156-176 | Every record is read back with its kind, address and data |
| `IntelHex.RecordsRead` | src/ftohex.c:145-207 | A file of data records is read back record by record |
| `FtoHex.HexReadsBack` | src/ftohex.c:145-207 | Parsing the HEX file gives exactly the records; below 64K they hold the input bytes at consecutive addresses from the origin and nothing else |
| `FtoHex.RecordsHold` | src/ftohex.c:145-190 | The records put each byte at origin plus index and no byte anywhere else |
| `FtoHex.RecordsFull` | src/ftohex.c:145-190 | Every record but the last has 16 bytes, the last at least one, each at its address |
| `FtoHex.HexExample` | src/ftohex.c:118-207 | A HEX file, character by character |
| `FtoHex.HexOfReadsBackExactly` | src/ftohex.c:118-207 | The HEX file of any format 1 or 3 file can be read; it holds as many bytes as the size leaves modulo 64K, from the origin on and nowhere else if they end by 64K; and it gives back the whole data if and only if that is shorter than 64K |
| `FtoHex.WholeFileLost` | src/ftohex.c:162-166 | Of a format 3 file of exactly 64K nothing is converted |
| `FtoHex.PutRecord` | src/ftohex.c:145-178 | The loop that prints one record prints its text, check sum included |
| `FtoHex.PutRecords` | src/ftohex.c:145-190 | The loop over records of 16 bytes prints all of them |
| `FtoHex.ConvertFile` | src/ftohex.c:118-207 | Formats 1 and 3: the whole HEX file of the data, of which only the size modulo 64K counts; a file too short for its origin is refused |
| `FtoHex.ConvertHunks` | src/ftohex.c:191-200 | Format 2: the program always gives up at the end of its input, after the last record |
| `FtoHex.HunksNeverEnd` | src/ftohex.c:198-223 | So its output never is a complete HEX file, and exactly the end record is missing from it |
| `FtoHex.HunkRecordsHold` | src/ftohex.c:145-200 | The records of a format 2 file put the bytes where its hunks do |
| `Arena.MaskRounds` | src/dalloc.c:93-94 | Rounding with the mask is rounding up to a multiple of 8 |
| `Arena.Allocator.SmallAlloc` | src/dalloc.c:113-175 | Regions are aligned, zero, inside one block past its header and pairwise disjoint, over any sequence of requests; the request fails if and only if it rounds to more than a block less its header; after everything was freed a request returns a piece of a freed block if and only if it fits what was left of that |
| `Arena.Allocator.Carve` | src/dalloc.c:164-174 | The current block is handed out from the front |
| `Arena.Allocator.NewBlock` | src/dalloc.c:141-162 | A new block goes on top of the stack, zeroed |
| `Arena.Allocator.Poke` | src/dalloc.c:113-175 | Writing inside a region leaves everything not handed out zero |
| `Arena.Allocator.SmallFreeAll` | src/dalloc.c:184-205 | Every block is released exactly once; if nothing was left of the last block the allocator is as new, and otherwise its buffer points into that block, which is released |
| `Arena.Allocator.AllocAfterFree` | src/dalloc.c:113-205 | Freeing everything and then asking for memory: the pointer returned lies in the block that was the last one, now released, if and only if the rounded request fits what was left of it; otherwise it lies in the new block and all is well |
| `MacroArgs.FieldsOfJoin` | src/ops.c:1184-1202 | Arguments joined by commas, with any spaces behind them, are read back as they were, unless the last one is empty |
| `MacroSubst.SplitArguments` | src/ops.c:1184-1202 | The argument list is the whole line followed by its comma fields |
| `MacroArgs.ArgumentsFill` | src/main.c:868-927 | A line of text, {n}, tabs, character constants and strings becomes the line with every {n} replaced by argument n, tabs by spaces, spaces in quotes protected and the comment gone, or the program gives up just if it does not fit the buffer at some time |
| `MacroArgs.BrokenLines` | src/main.c:819-939 | What an open string, open braces, a missing argument and a quote at the end of the line come to |
| `MacroArgs.NumberReads` | src/main.c:868-890 | The number in braces is read behind spaces and a sign, up to its last digit |
| `MacroArgs.TrimmedIs` | src/main.c:931-937 | At the end of a line all spaces go and nothing else |
| `MacroArgs.CleanPlain` | src/main.c:868-927 | Text that has been put in is scanned again and does not change |
| `MacroSubst.Cleaner.Insert` | src/main.c:900-917 | The two block moves with the signed offset put the argument in the place of the braces |
| `MacroSubst.Cleaner.Braces` | src/main.c:868-927 | What a brace comes to: unclosed, no such argument, too long, or replaced |
| `MacroSubst.Cleaner.TakeTurn` | src/main.c:826-933 | One turn of the loop keeps what the whole line comes to and leaves less to do |
| `MacroSubst.Cleanup` | src/main.c:819-939 | Scanning the buffer in place terminates, and the buffer then holds the function Clean of the line without the spaces at its end |

## Left out

- String operands and the conversion `]d`, `DC` of strings, `DV`, `SET`, `EQM` lines inside passes,
  `HEX`, `INCBIN`, `SEG` and `RORG`: the passes have one segment and numeric operands. EQM symbols are
  covered in the expression part.
- Bit-manipulation operands (`MF_IMOD`), mask bytes (`MF_MASK`) and the F8 operand parsers: more cases
  of the same encoding.
- IFCONST and IFNCONST: they look at what is known, so that a content pass need not be a fixpoint.
- In passes, SUBROUTINE, dollar labels and macros; they are treated in the line machine, whose lines
  may do anything to the state.
- PassTheorems.PassIsConsistent: assumes that no symbol the pass equates is set as a label at an unknown
  origin; `PassLimits.LabelAndEquate` shows what happens otherwise.
- PassFixpoint.ResolvedPassIsFixpoint: assumes that labels and equates do not share names, that ORG
  operands are known when they are evaluated, and that a symbol equated to an unknown value is not
  equated again in the same pass; `PassLimits` shows what happens otherwise.
- Structured.MachineRunsProgram: macros are taken as defined, and a line's keyword does not come out
  of macro arguments. END, and MEXIT inside a conditional or loop of the macro other than through
  `MacroExit`, are outside structured programs.
- Evaluator.Evaluator.Eval: expects a text that is safe, that is, one that fits the stacks and has its
  brackets and commas in place; overflow, a stray `]` and EQM symbols defined by way of themselves are
  not modelled.
- Evaluator.Evaluator.StackArg: does not model the reset of the stack when MAXARGS is reached.
- Evaluator.Evaluator.DoOp: does not model the reset of the stack when MAXOPS is reached.
- Evaluator.Evaluator.EvalTop: does not model an empty operator stack or a bracket on top, which no safe
  text leads to.
- Evaluator.Evaluator.CloseBracket: does not model `]d`.
- Evaluator.Evaluator.PushMacro: expects a nested text that is safe.
- Evaluator.Evaluator.Act: expects a step that is safe.
- Evaluator.Evaluator.EvalLoop: expects a text that is safe, as Eval does.
- Evaluator.Evaluator.FinishListElement: does not model a comma in front of which there is no argument.
- Encoding.InstructionDecodes: does not cover bit-manipulation operands and mask bytes.
- Assembler.Assembler.Mnemonic: does not model MF_MASK and MF_IMOD, nor MF_REL on modes other than the
  branches'.
- Assembler.Assembler.EncodeInto: leaves out the same cases.
- Assembler.Assembler.ProgramLabel: does not model RORG, dollar indices and a trailing colon.
- Assembler.Assembler.Generate: does not model BSS, RORG, CheckSum and the file; the file and BSS are in
  `OutputWriter`.
- OutputWriter.Output.Generate: does not model CheckSum and RORG.
- Assembler.Assembler.DefineConstants: does not model strings and DV.
- Assembler.Assembler.AlignOrigin: does not model RORG.
- Assembler.Assembler.SetOrg: does not model initorg, nor the end of the program on an unknown fill
  operand.
- Assembler.Assembler.Equ: does not model assignments to the origin and string values.
- Assembler.Assembler.VEndif: does not look at the file of a frame, there being one file; `LineRunner` does.
- Assembler.Assembler.DoLine: takes a line that is parsed already and has one of the directives named
  above.
- Assembler.Assembler.DoPass: takes one file of such lines.
- Assembler.Assembler.Assemble: does not model the stop after fatal errors and the option to do all passes.
- FtoBin.ConvertHunks: expects a file made of complete hunks; a truncated file ends in an assertion of
  the program.
- FtoHex.ConvertHunks: expects complete hunks likewise.
- HunkImage.ImagesRightExactly: expects hunks that begin no lower than the first one, the program refusing
  others, and that end by 64K.
- MacroSubst.Cleanup: expects arguments without quotes, braces, tabs and comment characters, and a line
  that does not end in a single quote; the pointer to the comment is not returned.
- Arena.Allocator.SmallAlloc: what malloc returns is a parameter, aligned and apart from the blocks in
  use; running out of memory is not modelled. The alignment is that of a machine with 8-byte words.
- Arena.Allocator.NewBlock: does not model the link written into a block's header; the list of blocks
  stands for it.
- SymbolHash.SymbolTable.FindSymbol: the special symbols `.`, `..` and `...` are handled by the
  expression part.
- Shift counts that are negative, shift counts and products beyond the width of the host's `long`, and addresses beyond 64K in passes.
- Bytes of an unknown branch displacement, which keep what the buffer held before, are taken as 0.
- Error texts, listing, verbose output, symbol files, command line, include paths: reporting and
  plumbing. Errors are counted.
- The opcode tables of the processors: any table will do.
